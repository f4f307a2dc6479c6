/** src/services/pdfService.js: rebuilding the lines of a PDF page from the
    positioned text items pdf.js reports, and assembling the pages of a
    document into one text while reporting progress. The pdf.js document
    and pages are inputs: each page is given as the list of its text items,
    or as the failure that loading it met. */
module PdfService {
  import opened Results
  import opened Strings
  import opened Sequences

  /** A pdf.js text item: `str`, and the translation `transform[4]`,
      `transform[5]` (x, y), each of which may be missing. */
  datatype Fragment = Fragment(str: Option<string>, x: Option<real>, y: Option<real>)

  /** What a line of the line map holds per item: `{ text, x }`. */
  datatype LineEntry = LineEntry(text: string, x: real)

  /** `Math.round`: the nearest integer, halves rounded toward +infinity. */
  function JsRound(v: real): int {
    (v + 0.5).Floor
  }

  lemma {:induction false} JsRoundNearest(v: real, k: int)
    ensures JsRound(v) == k <==> (k as real) - 0.5 <= v < (k as real) + 0.5
  {}

  /** `item?.str || ''` */
  function TextOf(f: Fragment): string {
    f.str.GetOr("")
  }

  /** An item that contributes nothing: its text is missing or whitespace
      only, which is when `!text.trim()` holds (`TrimEmptyIffBlank`). */
  predicate IsBlank(f: Fragment) {
    Blank(TextOf(f))
  }

  /** `Math.round(item?.transform?.[5] ?? 0)` */
  function KeyOf(f: Fragment): int {
    JsRound(f.y.GetOr(0.0))
  }

  /** `{ text, x }` with `x = item?.transform?.[4] ?? 0` */
  function EntryOf(f: Fragment): LineEntry {
    LineEntry(TextOf(f), f.x.GetOr(0.0))
  }

  // ---------------------------------------------------------------------------
  // The line map built by the loop of groupItemsIntoLines

  function Lookup(lineMap: map<int, seq<LineEntry>>, k: int): seq<LineEntry> {
    if k in lineMap then lineMap[k] else []
  }

  /** The line map once every item of `items` has been visited. */
  function LineMapOf(items: seq<Fragment>): map<int, seq<LineEntry>>
    decreases |items|
  {
    if items == [] then map[]
    else
      var m := LineMapOf(items[..|items| - 1]);
      var f := items[|items| - 1];
      if IsBlank(f) then m else m[KeyOf(f) := Lookup(m, KeyOf(f)) + [EntryOf(f)]]
  }

  /** The keys of that map in insertion order, the iteration order of a
      JavaScript `Map`. */
  function KeyOrderOf(items: seq<Fragment>): seq<int>
    decreases |items|
  {
    if items == [] then []
    else
      var p := KeyOrderOf(items[..|items| - 1]);
      var f := items[|items| - 1];
      if IsBlank(f) || KeyOf(f) in LineMapOf(items[..|items| - 1]) then p else p + [KeyOf(f)]
  }

  /** The entries of the non-blank items whose key is `k`, in input order. */
  function Members(items: seq<Fragment>, k: int): (r: seq<LineEntry>)
    ensures forall e :: e in r ==> !Blank(e.text)
  {
    if items == [] then []
    else (if !IsBlank(items[0]) && KeyOf(items[0]) == k then [EntryOf(items[0])] else [])
         + Members(items[1..], k)
  }

  lemma {:induction false} MembersAppend(items: seq<Fragment>, f: Fragment, k: int)
    ensures Members(items + [f], k)
         == Members(items, k) + (if !IsBlank(f) && KeyOf(f) == k then [EntryOf(f)] else [])
  {
    if items != [] {
      assert (items + [f])[1..] == items[1..] + [f];
      MembersAppend(items[1..], f, k);
    } else {
      assert ([f])[1..] == [];
    }
  }

  /** Line `k` of the map holds exactly the entries of the non-blank items
      with key `k`, in input order, and no other key is present. */
  lemma {:induction false} LineMapHoldsMembers(items: seq<Fragment>)
    ensures forall k :: k in LineMapOf(items) <==> Members(items, k) != []
    ensures forall k :: k in LineMapOf(items) ==> LineMapOf(items)[k] == Members(items, k)
    decreases |items|
  {
    if items != [] {
      var p := items[..|items| - 1];
      var f := items[|items| - 1];
      LineMapHoldsMembers(p);
      assert items == p + [f];
      forall k
        ensures Members(items, k)
             == Members(p, k) + (if !IsBlank(f) && KeyOf(f) == k then [EntryOf(f)] else [])
      {
        MembersAppend(p, f, k);
      }
    }
  }

  /** A key is present exactly when some non-blank item rounds to it. */
  lemma {:induction false} MembersNonEmpty(items: seq<Fragment>, k: int)
    ensures Members(items, k) != [] <==>
      exists i :: 0 <= i < |items| && !IsBlank(items[i]) && KeyOf(items[i]) == k
  {
    if items != [] {
      MembersNonEmpty(items[1..], k);
      if Members(items[1..], k) != [] {
        var i :| 0 <= i < |items[1..]| && !IsBlank(items[1..][i]) && KeyOf(items[1..][i]) == k;
        assert items[i + 1] == items[1..][i];
      }
      forall i | 1 <= i < |items| && !IsBlank(items[i]) && KeyOf(items[i]) == k
        ensures Members(items[1..], k) != []
      {
        assert items[1..][i - 1] == items[i];
      }
    }
  }

  /** The insertion order lists every key of the map once. */
  lemma {:induction false} KeyOrderListsKeys(items: seq<Fragment>)
    ensures Distinct(KeyOrderOf(items))
    ensures forall k :: k in KeyOrderOf(items) <==> k in LineMapOf(items)
    decreases |items|
  {
    if items != [] {
      KeyOrderListsKeys(items[..|items| - 1]);
    }
  }

  // ---------------------------------------------------------------------------
  // Emitting the lines (the sort/map/join/replace/filter chain)

  function EntryX(e: LineEntry): real {
    e.x
  }

  /** The key of `(a, b) => b[0] - a[0]`: larger line keys first. */
  function NegKey(k: int): real {
    -(k as real)
  }

  function Texts(es: seq<LineEntry>): (r: seq<string>)
    ensures |r| == |es|
  {
    seq(|es|, i requires 0 <= i < |es| => es[i].text)
  }

  /** One line: `lineItems.sort((a, b) => a.x - b.x).map(e => e.text)
      .join(' ').replace(/\s+/g, ' ').trim()`. */
  function LineText(entries: seq<LineEntry>): string {
    Trim(Collapse(Join(Texts(StableSort(entries, EntryX)), " ")))
  }

  /** The line keys in emission order. */
  function SortedKeys(order: seq<int>): seq<int> {
    StableSort(order, NegKey)
  }

  /** The lines of the map visited in `order`, sorted and with the empty ones
      filtered out. */
  function EmitLines(lineMap: map<int, seq<LineEntry>>, order: seq<int>): seq<string> {
    var keys := SortedKeys(order);
    NonEmptyOnly(seq(|keys|, j requires 0 <= j < |keys| => LineText(Lookup(lineMap, keys[j]))))
  }

  /** The lines of a page, top to bottom. */
  function PageLines(items: seq<Fragment>): seq<string> {
    EmitLines(LineMapOf(items), KeyOrderOf(items))
  }

  /** The value `groupItemsIntoLines(items)` returns. */
  function PageText(items: seq<Fragment>): string {
    Join(PageLines(items), "\n")
  }

  /** The loop of groupItemsIntoLines: fills the line map, and records the
      order in which its keys were first inserted. */
  method FillLineMap(items: seq<Fragment>) returns (lineMap: map<int, seq<LineEntry>>, order: seq<int>)
    ensures lineMap == LineMapOf(items)
    ensures order == KeyOrderOf(items)
  {
    lineMap := map[];
    order := [];
    var i := 0;
    while i < |items|
      invariant 0 <= i <= |items|
      invariant lineMap == LineMapOf(items[..i])
      invariant order == KeyOrderOf(items[..i])
    {
      var item := items[i];
      var t := TextOf(item);
      assert Trim(t) != [] <==> !IsBlank(item) by {
        TrimEmptyIffBlank(t);
      }
      if Trim(t) != [] {
        var x := item.x.GetOr(0.0);
        var y := item.y.GetOr(0.0);
        var key := JsRound(y);
        assert key == KeyOf(item) && LineEntry(t, x) == EntryOf(item);
        VisitItem(items, i);
        // get the line of `key`, creating it empty on first use, then push
        var line := [];
        if key in lineMap {
          line := lineMap[key];
        } else {
          order := order + [key];
        }
        lineMap := lineMap[key := line + [LineEntry(t, x)]];
      } else {
        VisitBlank(items, i);
      }
      i := i + 1;
    }
    assert items[..|items|] == items;
  }

  /** Visiting a blank item changes neither the line map nor the key order. */
  lemma {:induction false} VisitBlank(items: seq<Fragment>, i: nat)
    requires i < |items| && IsBlank(items[i])
    ensures LineMapOf(items[..i + 1]) == LineMapOf(items[..i])
    ensures KeyOrderOf(items[..i + 1]) == KeyOrderOf(items[..i])
  {
    assert items[..i + 1][..i] == items[..i];
  }

  /** Visiting a non-blank item appends its entry to the line of its key,
      and records the key if it is new. */
  lemma {:induction false} VisitItem(items: seq<Fragment>, i: nat)
    requires i < |items| && !IsBlank(items[i])
    ensures LineMapOf(items[..i + 1])
         == LineMapOf(items[..i])[KeyOf(items[i]) := Lookup(LineMapOf(items[..i]), KeyOf(items[i])) + [EntryOf(items[i])]]
    ensures KeyOf(items[i]) in LineMapOf(items[..i]) ==> KeyOrderOf(items[..i + 1]) == KeyOrderOf(items[..i])
    ensures KeyOf(items[i]) !in LineMapOf(items[..i]) ==> KeyOrderOf(items[..i + 1]) == KeyOrderOf(items[..i]) + [KeyOf(items[i])]
  {
    assert items[..i + 1][..i] == items[..i];
  }

  /** groupItemsIntoLines: the line map is filled, then the lines are
      emitted. */
  method GroupItemsIntoLines(items: seq<Fragment>) returns (text: string)
    ensures text == PageText(items)
  {
    var lineMap, order := FillLineMap(items);
    text := Join(EmitLines(lineMap, order), "\n");
  }

  // ---------------------------------------------------------------------------
  // Properties of the emitted lines

  /** A line is its items' words, in ascending x, joined by single spaces:
      trimmed, with no run of whitespace and no line break. */
  lemma {:induction false} LineTextIsWords(entries: seq<LineEntry>)
    ensures LineText(entries) == Join(AllWords(Texts(StableSort(entries, EntryX))), " ")
    ensures Words(LineText(entries)) == AllWords(Texts(StableSort(entries, EntryX)))
    ensures IsTrimmed(LineText(entries)) && PlainSpacing(LineText(entries))
    ensures '\n' !in LineText(entries)
  {
    var texts := Texts(StableSort(entries, EntryX));
    WordsJoin(texts);
    CollapseTrim(Join(texts, " "));
    PlainSpacingNoBreak(LineText(entries));
  }

  /** A line built from at least one non-blank item is not empty. */
  lemma {:induction false} LineTextNonEmpty(entries: seq<LineEntry>, e: LineEntry)
    requires e in entries && !Blank(e.text)
    ensures LineText(entries) != []
  {
    var sorted := StableSort(entries, EntryX);
    var texts := Texts(sorted);
    StableSortMembers(entries, EntryX);
    assert e in sorted;
    var i :| 0 <= i < |sorted| && sorted[i] == e;
    assert texts[i] == e.text;
    TrimEmptyIffBlank(e.text);
    WordsOfNonBlank(e.text);
    AllWordsNonEmpty(texts, i);
    LineTextIsWords(entries);
    WordsEmpty();
  }

  lemma {:induction false} SortedKeysDescending(order: seq<int>)
    requires Distinct(order)
    ensures StrictlyDescending(SortedKeys(order))
    ensures forall k :: k in SortedKeys(order) <==> k in order
  {
    StableSortDistinct(order, NegKey);
    StableSortCorrect(order, NegKey);
    StableSortMembers(order, NegKey);
    var keys := SortedKeys(order);
    forall i, j | 0 <= i < j < |keys|
      ensures keys[i] > keys[j]
    {
      assert NegKey(keys[i]) <= NegKey(keys[j]);
    }
  }

  /** The order in which the keys entered the map has no effect on the
      lines. */
  lemma {:induction false} EmitLinesIgnoresInsertionOrder(lineMap: map<int, seq<LineEntry>>, o1: seq<int>, o2: seq<int>)
    requires Distinct(o1) && Distinct(o2)
    requires forall k :: k in o1 <==> k in o2
    ensures EmitLines(lineMap, o1) == EmitLines(lineMap, o2)
  {
    SortedKeysDescending(o1);
    SortedKeysDescending(o2);
    StrictlyDescendingUnique(SortedKeys(o1), SortedKeys(o2));
  }

  /** The keys of the lines of a page, top to bottom. */
  function LineKeys(items: seq<Fragment>): seq<int> {
    SortedKeys(KeyOrderOf(items))
  }

  /** Line keys strictly decrease (the larger y comes first), and a key has a
      line exactly when some non-blank item rounds to it. */
  lemma {:induction false} LineKeysOfPage(items: seq<Fragment>)
    ensures StrictlyDescending(LineKeys(items))
    ensures forall k :: k in LineKeys(items) <==>
      exists i :: 0 <= i < |items| && !IsBlank(items[i]) && KeyOf(items[i]) == k
  {
    KeyOrderListsKeys(items);
    SortedKeysDescending(KeyOrderOf(items));
    LineMapHoldsMembers(items);
    forall k
      ensures k in LineKeys(items) <==>
        exists i :: 0 <= i < |items| && !IsBlank(items[i]) && KeyOf(items[i]) == k
    {
      MembersNonEmpty(items, k);
    }
  }

  /** Line j of a page is the line of the items whose key is the j-th line
      key; it is never empty, so the `.filter(Boolean)` drops nothing. */
  lemma {:induction false} PageLinesAreGroups(items: seq<Fragment>)
    ensures |PageLines(items)| == |LineKeys(items)|
    ensures forall j :: 0 <= j < |LineKeys(items)| ==>
      PageLines(items)[j] == LineText(Members(items, LineKeys(items)[j]))
    ensures forall j :: 0 <= j < |PageLines(items)| ==> PageLines(items)[j] != []
  {
    var m := LineMapOf(items);
    var keys := LineKeys(items);
    KeyOrderListsKeys(items);
    SortedKeysDescending(KeyOrderOf(items));
    LineMapHoldsMembers(items);
    var rendered := seq(|keys|, j requires 0 <= j < |keys| => LineText(Lookup(m, keys[j])));
    forall j | 0 <= j < |keys|
      ensures rendered[j] == LineText(Members(items, keys[j])) && rendered[j] != []
    {
      var ms := Members(items, keys[j]);
      assert keys[j] in m;
      assert ms != [];
      LineTextNonEmpty(ms, ms[0]);
    }
    NonEmptyOnlyKeeps(rendered);
    assert PageLines(items) == NonEmptyOnly(rendered);
  }

  /** Every line of a page is trimmed, has single plain spaces between its
      words and no line break; the words of line j are those of its items in
      ascending x. */
  lemma {:induction false} PageLinesShape(items: seq<Fragment>)
    ensures forall j :: 0 <= j < |PageLines(items)| ==>
      IsTrimmed(PageLines(items)[j]) && PlainSpacing(PageLines(items)[j])
      && '\n' !in PageLines(items)[j]
      && Words(PageLines(items)[j])
         == AllWords(Texts(StableSort(Members(items, LineKeys(items)[j]), EntryX)))
  {
    PageLinesAreGroups(items);
    forall j | 0 <= j < |PageLines(items)|
      ensures IsTrimmed(PageLines(items)[j]) && PlainSpacing(PageLines(items)[j])
      && '\n' !in PageLines(items)[j]
      && Words(PageLines(items)[j])
         == AllWords(Texts(StableSort(Members(items, LineKeys(items)[j]), EntryX)))
    {
      LineTextIsWords(Members(items, LineKeys(items)[j]));
    }
  }

  /** Splitting the page text at its line breaks gives back its lines, none
      of them empty; a page with no non-blank item gives "". */
  lemma {:induction false} PageTextLines(items: seq<Fragment>)
    ensures PageText(items) == [] <==> PageLines(items) == []
    ensures PageText(items) != [] ==> Split(PageText(items), '\n') == PageLines(items)
  {
    var lines := PageLines(items);
    PageLinesAreGroups(items);
    PageLinesShape(items);
    if lines != [] {
      SplitJoin(lines, '\n');
      assert Split(PageText(items), '\n') == lines;
      assert Split([], '\n') == [[]];
    }
  }

  lemma {:induction false} PageTextOfNoItems()
    ensures PageText([]) == []
  {}

  lemma {:induction false} BlankItemIgnoredByMap(a: seq<Fragment>, f: Fragment, b: seq<Fragment>)
    requires IsBlank(f)
    ensures LineMapOf(a + [f] + b) == LineMapOf(a + b)
    ensures KeyOrderOf(a + [f] + b) == KeyOrderOf(a + b)
    decreases |b|
  {
    if b == [] {
      assert (a + [f] + b)[..|a + [f] + b| - 1] == a && a + b == a;
    } else {
      var b' := b[..|b| - 1];
      BlankItemIgnoredByMap(a, f, b');
      assert (a + [f] + b)[..|a + [f] + b| - 1] == a + [f] + b';
      assert (a + b)[..|a + b| - 1] == a + b';
      assert (a + [f] + b)[|a + [f] + b| - 1] == b[|b| - 1] == (a + b)[|a + b| - 1];
    }
  }

  /** An item whose text is missing or whitespace only changes nothing,
      wherever it stands. */
  lemma {:induction false} BlankItemIgnored(a: seq<Fragment>, f: Fragment, b: seq<Fragment>)
    requires IsBlank(f)
    ensures PageText(a + [f] + b) == PageText(a + b)
  {
    BlankItemIgnoredByMap(a, f, b);
  }

  // ---------------------------------------------------------------------------
  // extractTextFromPDF: the page loop

  /** A page as pdf.js delivers it: its text items, or the failure of
      `getPage` or `getTextContent`. */
  datatype PageSource = Page(items: seq<Fragment>) | PageFailed(message: string)

  const FailurePrefix := "Failed to extract text from PDF: "

  /** `--- Page ${i} ---\n` */
  function PageHeader(i: nat): string {
    "--- Page " + NatToString(i) + " ---\n"
  }

  /** The text accumulated in `fullText` after pages 1..|texts|. */
  function Sections(texts: seq<string>): string {
    if texts == [] then []
    else Sections(texts[..|texts| - 1]) + PageHeader(|texts|) + texts[|texts| - 1] + "\n\n"
  }

  /** `Math.round((i / n) * 100)` on exact rationals, as the integer
      quotient it equals (`RoundedPercent`). */
  function Progress(i: nat, n: nat): (p: int)
    requires 0 < n && i <= n
    ensures 0 <= p <= 100
  {
    PercentBounds(i, n);
    (200 * i + n) / (2 * n)
  }

  /** Rounding `(i / n) * 100` half up is the quotient of `200 i + n` by
      `2 n`. */
  lemma {:induction false} RoundedPercent(i: nat, n: nat)
    requires 0 < n
    ensures (200 * i + n) / (2 * n) == JsRound(((i as real) / (n as real)) * 100.0)
  {
    var q, r := (200 * i + n) / (2 * n), (200 * i + n) % (2 * n);
    HalfUpShift(i, n);
    QuotientSplit(200 * i + n, 2 * n);
    JsRoundNearest(((i as real) / (n as real)) * 100.0, q);
  }

  /** `(i / n) * 100 + 1/2 == (200 i + n) / (2 n)` */
  lemma {:induction false} HalfUpShift(i: nat, n: nat)
    requires 0 < n
    ensures ((i as real) / (n as real)) * 100.0 + 0.5 == ((200 * i + n) as real) / ((2 * n) as real)
  {
    var x := (i as real) / (n as real);
    var y := ((200 * i + n) as real) / ((2 * n) as real);
    var m := n as real;
    assert x * m == i as real;
    assert y * (2.0 * m) == (200 * i + n) as real;
    assert (200 * i + n) as real == 200.0 * (x * m) + m;
    assert (200.0 * x + 1.0) * m == 200.0 * (x * m) + m;
    assert (2.0 * y) * m == y * (2.0 * m);
    assert (2.0 * y - (200.0 * x + 1.0)) * m == 0.0;
    ZeroProduct(2.0 * y - (200.0 * x + 1.0), m);
  }

  /** The exact quotient of `a` by `b` lies in `[a / b, a / b + 1)`. */
  lemma {:induction false} QuotientSplit(a: nat, b: nat)
    requires 0 < b
    ensures ((a / b) as real) <= (a as real) / (b as real) < ((a / b) as real) + 1.0
  {
    var q, r := a / b, a % b;
    assert a == b * q + r && r < b;
    assert (a as real) == (b as real) * (q as real) + (r as real);
    assert (a as real) / (b as real) == (q as real) + (r as real) / (b as real);
    assert 0.0 <= (r as real) / (b as real) < 1.0;
  }

  /** Both ends of the quotient, in whole numbers. */
  lemma {:induction false} PercentBounds(i: nat, n: nat)
    requires 0 < n && i <= n
    ensures 0 <= (200 * i + n) / (2 * n) <= 100
  {
    var q := (200 * i + n) / (2 * n);
    assert (2 * n) * q <= 200 * i + n;
    assert 200 * i + n <= 201 * n;
    assert (2 * n) * q < (2 * n) * 101;
    MulLess(q, 101, 2 * n);
  }

  lemma {:induction false} ZeroProduct(a: real, m: real)
    requires m > 0.0 && a * m == 0.0
    ensures a == 0.0
  {}

  lemma {:induction false} MulLess(a: int, b: int, m: int)
    requires m > 0 && m * a < m * b
    ensures a < b
  {
    assert m * b - m * a == m * (b - a);
  }

  /** Every reported value lies in 0..100. */
  lemma {:induction false} ProgressBounds(i: nat, n: nat)
    requires 0 < n && i <= n
    ensures 0 <= Progress(i, n) <= 100
  {
    RoundedPercent(i, n);
    RatioBounds(i, n);
  }

  lemma {:induction false} RatioBounds(i: nat, n: nat)
    requires 0 < n && i <= n
    ensures 0.0 <= (i as real) / (n as real) <= 1.0
  {}

  /** The values reported after pages 1..count of n. */
  function ProgressValues(count: nat, n: nat): (r: seq<int>)
    requires count <= n
    ensures |r| == count
  {
    if count == 0 then [] else ProgressValues(count - 1, n) + [Progress(count, n)]
  }

  /** The index of the first page that failed to load, or the page count. */
  function FirstFailed(pages: seq<PageSource>): (f: nat)
    ensures f <= |pages|
    ensures f < |pages| ==> pages[f].PageFailed?
    ensures forall j :: 0 <= j < f ==> pages[j].Page?
  {
    if pages == [] || pages[0].PageFailed? then 0 else 1 + FirstFailed(pages[1..])
  }


  function PageSourceText(p: PageSource): string {
    match p
    case Page(items) => PageText(items)
    case PageFailed(_) => []
  }

  /** The texts of the pages, in order. */
  function LoadedTexts(pages: seq<PageSource>): (r: seq<string>)
    ensures |r| == |pages|
  {
    if pages == [] then []
    else LoadedTexts(pages[..|pages| - 1]) + [PageSourceText(pages[|pages| - 1])]
  }

  /** extractTextFromPDF: loads pages 1..n in order, appends each page's
      section and reports progress after it; a failure to open the document
      or to load any page ends it with the prefixed message. */
  method ExtractTextFromPdf(doc: Result<seq<PageSource>, string>)
    returns (result: Result<string, string>, progress: seq<int>)
    ensures doc.Err? ==> result == Err(FailurePrefix + doc.error) && progress == []
    ensures doc.Ok? ==>
      var pages := doc.value;
      var f := FirstFailed(pages);
      progress == ProgressValues(f, |pages|)
      && (f == |pages| ==> result == Ok(Trim(Sections(LoadedTexts(pages)))))
      && (f < |pages| ==> result == Err(FailurePrefix + pages[f].message))
  {
    if doc.Err? {
      return Err(FailurePrefix + doc.error), [];
    }
    var pages := doc.value;
    var totalPages := |pages|;
    var fullText := "";
    progress := [];
    var i := 1;
    while i <= totalPages
      invariant 1 <= i <= totalPages + 1
      invariant i - 1 <= FirstFailed(pages)
      invariant fullText == Sections(LoadedTexts(pages[..i - 1]))
      invariant progress == ProgressValues(i - 1, totalPages)
    {
      var page := pages[i - 1];
      if page.PageFailed? {
        FirstFailedHere(pages, i - 1);
        return Err(FailurePrefix + page.message), progress;
      }
      FirstFailedPast(pages, i - 1);
      fullText := AppendSection(pages, i, fullText);
      progress := progress + [Progress(i, totalPages)];
      i := i + 1;
    }
    assert pages[..totalPages] == pages;
    result := Ok(Trim(fullText));
  }

  /** One pass of the loop on a page that loaded: its lines are grouped and
      its section is appended. */
  method AppendSection(pages: seq<PageSource>, i: nat, fullText: string) returns (r: string)
    requires 0 < i <= |pages| && pages[i - 1].Page?
    requires fullText == Sections(LoadedTexts(pages[..i - 1]))
    ensures r == Sections(LoadedTexts(pages[..i]))
  {
    var pageText := GroupItemsIntoLines(pages[i - 1].items);
    SectionsStep(pages, i);
    r := fullText + PageHeader(i) + pageText + "\n\n";
  }

  lemma {:induction false} FirstFailedHere(pages: seq<PageSource>, j: nat)
    requires j <= FirstFailed(pages) && j < |pages| && pages[j].PageFailed?
    ensures FirstFailed(pages) == j
  {
  }

  lemma {:induction false} FirstFailedPast(pages: seq<PageSource>, j: nat)
    requires j <= FirstFailed(pages) && j < |pages| && pages[j].Page?
    ensures j + 1 <= FirstFailed(pages)
  {}

  lemma {:induction false} SectionsStep(pages: seq<PageSource>, i: nat)
    requires 0 < i <= |pages|
    ensures Sections(LoadedTexts(pages[..i]))
         == Sections(LoadedTexts(pages[..i - 1])) + PageHeader(i) + PageSourceText(pages[i - 1]) + "\n\n"
  {
    assert pages[..i][..i - 1] == pages[..i - 1];
    var t := LoadedTexts(pages[..i]);
    assert t[..i - 1] == LoadedTexts(pages[..i - 1]);
  }

  /** No other index has the properties of the first failed page. */
  lemma {:induction false} FirstFailedAt(pages: seq<PageSource>, f: nat)
    requires f <= |pages|
    requires forall j :: 0 <= j < f ==> pages[j].Page?
    requires f < |pages| ==> pages[f].PageFailed?
    ensures FirstFailed(pages) == f
  {
    if f > 0 {
      FirstFailedAt(pages[1..], f - 1);
    }
  }

  // ---------------------------------------------------------------------------
  // Properties of the assembly and of the progress values

  /** The reported values lie in 0..100, never decrease, and the last one is
      100. */
  lemma {:induction false} ProgressValuesShape(count: nat, n: nat)
    requires count <= n
    ensures forall j :: 0 <= j < count ==> 0 <= ProgressValues(count, n)[j] <= 100
    ensures forall j, k :: 0 <= j < k < count ==> ProgressValues(count, n)[j] <= ProgressValues(count, n)[k]
    ensures 0 < count == n ==> ProgressValues(count, n)[count - 1] == 100
  {
    ProgressValuesAt(count, n);
    ProgressValuesRise(count, n);
    forall j | 0 <= j < count
      ensures 0 <= ProgressValues(count, n)[j] <= 100
    {
      ProgressBounds(j + 1, n);
    }
    if 0 < count == n {
      ProgressComplete(n);
    }
  }

  lemma {:induction false} ProgressValuesRise(count: nat, n: nat)
    requires count <= n
    requires forall j :: 0 <= j < count ==> ProgressValues(count, n)[j] == Progress(j + 1, n)
    ensures forall j, k :: 0 <= j < k < count ==> ProgressValues(count, n)[j] <= ProgressValues(count, n)[k]
  {
    forall j, k | 0 <= j < k < count
      ensures ProgressValues(count, n)[j] <= ProgressValues(count, n)[k]
    {
      ProgressMonotone(j + 1, k + 1, n);
    }
  }

  lemma {:induction false} ProgressValuesAt(count: nat, n: nat)
    requires count <= n
    ensures forall j :: 0 <= j < count ==> ProgressValues(count, n)[j] == Progress(j + 1, n)
  {
    if count > 0 {
      ProgressValuesAt(count - 1, n);
    }
  }

  lemma {:induction false} ProgressMonotone(i: nat, j: nat, n: nat)
    requires 0 < n && i <= j <= n
    ensures Progress(i, n) <= Progress(j, n)
  {
    RoundedPercent(i, n);
    RoundedPercent(j, n);
    RatioMonotone(i, j, n);
  }

  lemma {:induction false} RatioMonotone(i: nat, j: nat, n: nat)
    requires 0 < n && i <= j
    ensures (i as real) / (n as real) <= (j as real) / (n as real)
  {}

  lemma {:induction false} ProgressComplete(n: nat)
    requires 0 < n
    ensures Progress(n, n) == 100
  {
    RoundedPercent(n, n);
    assert (n as real) / (n as real) == 1.0;
  }

  lemma {:induction false} SectionsStartWithFirstHeader(texts: seq<string>)
    requires texts != []
    ensures StartsWith(Sections(texts), PageHeader(1))
  {
    var last := texts[|texts| - 1];
    var prior := texts[..|texts| - 1];
    var tail := PageHeader(|texts|) + last + "\n\n";
    assert Sections(texts) == Sections(prior) + tail;
    if |texts| > 1 {
      SectionsStartWithFirstHeader(prior);
      StartsWithAppend(Sections(prior), PageHeader(1), tail);
    } else {
      assert prior == [];
      assert StartsWith(PageHeader(1), PageHeader(1));
      StartsWithAppend(PageHeader(1), PageHeader(1), last + "\n\n");
      assert Sections(texts) == PageHeader(1) + (last + "\n\n");
    }
  }

  /** The document text is the sections of pages 1..n with only the trailing
      whitespace removed; with no page it is "". */
  lemma {:induction false} AssembledText(texts: seq<string>)
    ensures Trim(Sections(texts)) == TrimEnd(Sections(texts))
    ensures texts == [] ==> Trim(Sections(texts)) == []
  {
    if texts != [] {
      SectionsStartWithFirstHeader(texts);
      var s := Sections(texts);
      assert s[0] == '-';
      assert TrimStart(s) == s;
    }
  }

  /** The section of the last page closes the text: only the blank line
      after it is trimmed away, when the page text ends in a non-space. */
  lemma {:induction false} LastSectionTrimmed(texts: seq<string>)
    requires texts != []
    requires var last := texts[|texts| - 1]; last != [] && !IsSpace(last[|last| - 1])
    ensures Trim(Sections(texts))
         == Sections(texts[..|texts| - 1]) + PageHeader(|texts|) + texts[|texts| - 1]
  {
    var last := texts[|texts| - 1];
    var body := Sections(texts[..|texts| - 1]) + PageHeader(|texts|) + last;
    assert Sections(texts) == body + ['\n'] + ['\n'];
    AssembledText(texts);
    TrimEndSpaceSuffix(body + ['\n'], '\n');
    TrimEndSpaceSuffix(body, '\n');
    assert body[|body| - 1] == last[|last| - 1];
    assert TrimEnd(body) == body;
  }

  /** The header of the first page, written out. */
  lemma {:induction false} FirstPageHeader()
    ensures PageHeader(1) == "--- Page 1 ---\n"
  {
    assert NatToString(1) == "1";
  }
}
