/**
  The analysis proper: from the fields the HTML parser extracted to the
  measurements, the recommendation table and the suggested title, plus the
  two error outcomes of a failed request.
 */
module Analysis {
  import opened Chars
  import opened Search
  import opened Trim
  import opened Split
  import opened Tokens
  import opened Content
  import opened Matching
  import opened Rules
  import opened Seqs

  datatype Option<T> = None | Some(value: T)

  /** The three keyword fields of a request. */
  datatype Keywords = Keywords(primary: string, secondary: string, brand: string)

  /**
    What the HTML parser hands over: the text of the `<title>` element and the
    `content` attribute of the description `<meta>` element when present (a
    missing element and a missing attribute both read as `None`), the texts of
    the `<h1>` and `<h2>` elements, and the visible text of the page.
   */
  datatype Parsed = Parsed(
    titleText: Option<string>,
    descriptionContent: Option<string>,
    h1Texts: seq<string>,
    h2Texts: seq<string>,
    bodyText: string)

  /** The page fields the analysis works on. */
  datatype Page = Page(title: string, description: string, h1: seq<string>, h2: seq<string>, text: string)

  /** `[t.strip() for t in texts if t.strip()]` */
  function CleanHeaders(texts: seq<string>): seq<string>
    decreases |texts|
  {
    if |texts| == 0 then []
    else (if |Strip(texts[0])| > 0 then [Strip(texts[0])] else []) + CleanHeaders(texts[1..])
  }

  /** `h` is the non-empty stripped text of one of the header elements. */
  ghost predicate IsHeaderOf(texts: seq<string>, h: string) {
    |h| > 0 && exists k :: 0 <= k < |texts| && Strip(texts[k]) == h
  }

  lemma {:induction false} HeaderOfCons(texts: seq<string>, h: string)
    requires |texts| > 0
    ensures IsHeaderOf(texts, h) <==> (|h| > 0 && Strip(texts[0]) == h) || IsHeaderOf(texts[1..], h)
  {
    if IsHeaderOf(texts, h) {
      var k :| 0 <= k < |texts| && Strip(texts[k]) == h;
      if k > 0 {
        assert texts[1..][k - 1] == texts[k];
      }
    }
    if IsHeaderOf(texts[1..], h) {
      var k :| 0 <= k < |texts[1..]| && Strip(texts[1..][k]) == h;
      assert texts[k + 1] == texts[1..][k];
    }
  }

  /**
    The kept headers are exactly the non-empty stripped header texts, and
    there are never more of them than header elements.
   */
  lemma {:induction false} CleanHeadersMembers(texts: seq<string>)
    ensures |CleanHeaders(texts)| <= |texts|
    ensures forall h :: h in CleanHeaders(texts) <==> IsHeaderOf(texts, h)
    decreases |texts|
  {
    if |texts| > 0 {
      CleanHeadersMembers(texts[1..]);
      var head := if |Strip(texts[0])| > 0 then [Strip(texts[0])] else [];
      assert CleanHeaders(texts) == head + CleanHeaders(texts[1..]);
      forall h
        ensures h in CleanHeaders(texts) <==> IsHeaderOf(texts, h)
      {
        HeaderOfCons(texts, h);
      }
    }
  }

  /**
    Cleaning keeps order and repeats: the headers of two runs of elements are
    those of the first run followed by those of the second. With the
    one-element case this fixes the result, its order and its length.
   */
  lemma {:induction false} CleanHeadersAppend(a: seq<string>, b: seq<string>)
    ensures CleanHeaders(a + b) == CleanHeaders(a) + CleanHeaders(b)
    decreases |a|
  {
    if |a| == 0 {
      assert a + b == b;
    } else {
      assert (a + b)[0] == a[0];
      assert (a + b)[1..] == a[1..] + b;
      CleanHeadersAppend(a[1..], b);
    }
  }

  /** One element gives its stripped text, or nothing when that is empty. */
  lemma {:induction false} CleanHeadersSingle(t: string)
    ensures |Strip(t)| > 0 ==> CleanHeaders([t]) == [Strip(t)]
    ensures |Strip(t)| == 0 ==> CleanHeaders([t]) == []
  {
    assert [t][1..] == [];
  }

  /**
    A text field read with `.strip()`: empty when the element is absent, and
    otherwise the element's text less the whitespace at its ends.
   */
  function StripField(o: Option<string>): (r: string)
    ensures IsStripped(r)
    ensures o.None? ==> r == []
    ensures o.Some? ==> StripOf(o.value, r)
  {
    match o
    case None => []
    case Some(t) => StripIsStripOf(t); Strip(t)
  }

  /**
    The fields of a parsed page: the title and description stripped, and empty
    when the element is absent; the headers cleaned; the text as it is.
   */
  function Extract(p: Parsed): (page: Page)
    ensures IsStripped(page.title) && IsStripped(page.description)
    ensures p.titleText.None? ==> page.title == []
    ensures p.titleText.Some? ==> StripOf(p.titleText.value, page.title)
    ensures p.descriptionContent.None? ==> page.description == []
    ensures p.descriptionContent.Some? ==> StripOf(p.descriptionContent.value, page.description)
    ensures page.h1 == CleanHeaders(p.h1Texts) && page.h2 == CleanHeaders(p.h2Texts)
    ensures page.text == p.bodyText
  {
    Page(StripField(p.titleText), StripField(p.descriptionContent),
      CleanHeaders(p.h1Texts), CleanHeaders(p.h2Texts), p.bodyText)
  }

  /**
    A present title or description is determined by its element: it is the
    only stripped string that is the element's text less whitespace at its ends.
   */
  lemma {:induction false} ExtractedFieldUnique(t: string, r: string)
    requires IsStripped(r) && StripOf(t, r)
    ensures r == StripField(Some(t))
  {
    StripOfUnique(t, r, StripField(Some(t)));
  }

  /** The measurements of `page` against the keywords, computed on the normalised content. */
  function Measure(page: Page, kws: Keywords): Metrics {
    var content := Normalize(page.text);
    Metrics(
      |page.title|,
      |page.description|,
      WordCount(content),
      CountCI(content, kws.primary),
      CountCI(content, kws.secondary),
      CountCI(content, kws.brand),
      ContainsCI(page.title, kws.primary),
      StartsWithCI(page.title, kws.primary),
      ContainsCI(page.title, kws.secondary),
      ContainsCI(page.title, kws.brand),
      ContainsCI(page.description, kws.primary),
      ContainsCI(page.description, kws.secondary),
      |page.h1|,
      |page.h2|,
      AnyContainsCI(page.h1, kws.primary),
      AnyContainsCI(page.h2, kws.primary),
      AnyContainsCI(page.h2, kws.secondary))
  }

  /** The separator of the suggested title. */
  const Bar: string := " | "

  /** `f"{primary} | {secondary} | {brand}"` */
  function SuggestedTitle(kws: Keywords): (t: string)
    ensures |t| == |kws.primary| + |kws.secondary| + |kws.brand| + 6
  {
    kws.primary + Bar + kws.secondary + Bar + kws.brand
  }

  /** The analysis report, without its wording. */
  datatype Report = Report(
    url: string,
    keywords: Keywords,
    title: string,
    description: string,
    metrics: Metrics,
    recommendations: seq<Rec>,
    suggestedTitle: string,
    suggestedLength: nat)

  function Analyze(url: string, kws: Keywords, page: Page): (r: Report)
    ensures r.suggestedLength == |kws.primary| + |kws.secondary| + |kws.brand| + 6
  {
    var m := Measure(page, kws);
    var t := SuggestedTitle(kws);
    Report(url, kws, page.title, page.description, m, Recommendations(m), t, |t|)
  }

  /** How the request for the page ended. */
  datatype FetchOutcome =
    | Fetched(parsed: Parsed)
    | RequestFailed(reason: string)
    | Crashed(reason: string)

  datatype ScrapeResult = Analysed(report: Report) | Failed(message: string)

  const FetchErrorPrefix: string := "Error: Failed to fetch URL "
  const CrashPrefix: string := "Error: Unexpected error while analyzing "
  const ReasonSeparator: string := ". Error: "

  /** The whole tool: analyse the fetched page, or report why there is nothing to analyse. */
  function Scrape(url: string, kws: Keywords, outcome: FetchOutcome): (r: ScrapeResult)
    ensures r.Analysed? <==> outcome.Fetched?
    ensures r.Analysed? ==> r.report.url == url && r.report.keywords == kws
    ensures outcome.RequestFailed? ==> r == Failed(FetchErrorPrefix + url + ReasonSeparator + outcome.reason)
    ensures outcome.Crashed? ==> r == Failed(CrashPrefix + url + ReasonSeparator + outcome.reason)
  {
    match outcome
    case Fetched(p) => Analysed(Analyze(url, kws, Extract(p)))
    case RequestFailed(e) => Failed(FetchErrorPrefix + url + ReasonSeparator + e)
    case Crashed(e) => Failed(CrashPrefix + url + ReasonSeparator + e)
  }

  /** An error message names both the URL that was asked for and the cause. */
  lemma {:induction false} FailureNamesUrl(url: string, kws: Keywords, outcome: FetchOutcome)
    requires !outcome.Fetched?
    ensures var r := Scrape(url, kws, outcome);
      r.Failed? && Contains(r.message, url) && Contains(r.message, outcome.reason)
  {
    var msg := Scrape(url, kws, outcome).message;
    var pre := if outcome.RequestFailed? then FetchErrorPrefix else CrashPrefix;
    assert msg == pre + url + (ReasonSeparator + outcome.reason);
    assert msg[|pre|..|pre| + |url|] == url;
    OccursIsContained(msg, url, |pre|);
    var k := |pre| + |url| + |ReasonSeparator|;
    assert msg[k..k + |outcome.reason|] == outcome.reason;
    OccursIsContained(msg, outcome.reason, k);
  }

  // ---------------------------------------------------------------------
  // Properties of the measurements

  /** The word count of the content is the number of whitespace-separated tokens of the raw text. */
  lemma {:induction false} WordCountOfText(page: Page, kws: Keywords)
    ensures Measure(page, kws).wordCount == |Words(page.text)|
  {
    NormalizeKeepsWords(page.text);
  }

  /**
    The primary keyword's place in the title is exactly one of: missing (not a
    case-insensitive substring), misplaced (a substring but not a prefix), or
    leading (a prefix).
   */
  lemma {:induction false} PlacementThreeWay(page: Page, kws: Keywords)
    ensures var m := Measure(page, kws);
      var p := PlacementOf(m.titleHasPrimary, m.titleStartsWithPrimary);
      && (p == Missing <==> !ContainsCI(page.title, kws.primary))
      && (p == Misplaced <==> ContainsCI(page.title, kws.primary) && !StartsWithCI(page.title, kws.primary))
      && (p == Leading <==> StartsWithCI(page.title, kws.primary))
  {
    if StartsWithCI(page.title, kws.primary) {
      StartsWithCIContains(page.title, kws.primary);
    }
  }

  /**
    Each header test holds exactly when some kept header of that level
    contains the keyword, so it fails when there are no such headers.
   */
  lemma {:induction false} HeaderTests(page: Page, kws: Keywords)
    ensures var m := Measure(page, kws);
      && (m.h1HasPrimary <==> exists k :: 0 <= k < |page.h1| && ContainsCI(page.h1[k], kws.primary))
      && (m.h2HasPrimary <==> exists k :: 0 <= k < |page.h2| && ContainsCI(page.h2[k], kws.primary))
      && (m.h2HasSecondary <==> exists k :: 0 <= k < |page.h2| && ContainsCI(page.h2[k], kws.secondary))
      && (|page.h1| == 0 ==> !m.h1HasPrimary)
      && (|page.h2| == 0 ==> !m.h2HasPrimary && !m.h2HasSecondary)
  {
    AnyContainsCIExists(page.h1, kws.primary);
    AnyContainsCIExists(page.h2, kws.primary);
    AnyContainsCIExists(page.h2, kws.secondary);
  }

  /**
    For a non-empty keyword the count is positive exactly when the content
    contains it, and never exceeds the content length divided by the keyword
    length.
   */
  lemma {:induction false} CountBounds(page: Page, kw: string)
    requires |kw| > 0
    ensures var content := Normalize(page.text);
      && CountCI(content, kw) <= |content| / |kw|
      && (CountCI(content, kw) > 0 <==> ContainsCI(content, kw))
  {
    CountCIBound(Normalize(page.text), kw);
  }

  /** A keyword holding two spaces in a row is never counted, since the content has none. */
  lemma {:induction false} GapKeywordUncounted(page: Page, kw: string)
    requires Contains(kw, Gap)
    ensures CountCI(Normalize(page.text), kw) == 0
  {
    NormalizeShape(page.text);
    GapFreeUncounted(Normalize(page.text), kw);
  }

  lemma {:induction false} GapFreeUncounted(c: string, kw: string)
    requires NoGap(c) && Contains(kw, Gap)
    ensures CountCI(c, kw) == 0
  {
    LowerKeepsGapFree(c);
    LowerKeepsContains(kw, Gap);
    assert Lower(Gap) == Gap;
    CountCIBound(c, kw);
    if CountCI(c, kw) > 0 {
      ContainsTransitive(Lower(c), Lower(kw), Gap);
    }
  }

  /** Lower-casing neither creates nor removes a space, so a text without a double space keeps none. */
  lemma {:induction false} LowerKeepsGapFree(c: string)
    requires NoGap(c)
    ensures !Contains(Lower(c), Gap)
  {
    var l := Lower(c);
    forall i | 0 <= i && i + 1 < |l|
      ensures !(l[i] == ' ' && l[i + 1] == ' ')
    {
      assert l[i] == LowerChar(c[i]) && l[i + 1] == LowerChar(c[i + 1]);
    }
    NoGapIffAbsent(l);
  }

  /**
    In the report, the brand-opportunity line appears exactly when the brand
    is not in the title and the title is shorter than 60 characters.
   */
  lemma {:induction false} BrandOpportunityRule(url: string, kws: Keywords, page: Page)
    ensures BrandOpportunity in Analyze(url, kws, page).recommendations
      <==> !ContainsCI(page.title, kws.brand) && |page.title| < 60
  {
    BrandLine(Measure(page, kws));
  }

  // ---------------------------------------------------------------------
  // The suggested title splits back into its keywords

  /** The separator cannot start at `k` unless a bar follows it. */
  lemma {:induction false} NoBarNoOccurs(x: string, k: int)
    requires 0 <= k && (k + 1 < |x| ==> x[k + 1] != '|')
    ensures !OccursAt(x, Bar, k)
  {
    assert k + 3 <= |x| ==> x[k..k + 3][1] == x[k + 1];
  }

  /** No occurrence of the separator starts inside `a` when `a` holds no bar. */
  lemma {:induction false} BarAfter(a: string, rest: string)
    requires '|' !in a
    ensures forall k :: 0 <= k < |a| ==> !OccursAt(a + Bar + rest, Bar, k)
  {
    var x := a + Bar + rest;
    forall k | 0 <= k < |a|
      ensures !OccursAt(x, Bar, k)
    {
      if k + 1 < |a| {
        assert x[k + 1] == a[k + 1];
      } else {
        assert x[k + 1] == ' ';
      }
      NoBarNoOccurs(x, k);
    }
  }

  /** A string without a bar holds no separator. */
  lemma {:induction false} NoBarNoSeparator(a: string)
    requires '|' !in a
    ensures !Contains(a, Bar)
  {
    ContainsIffOccurs(a, Bar);
    forall k | 0 <= k
      ensures !OccursAt(a, Bar, k)
    {
      if k + 1 < |a| {
        assert a[k + 1] in a;
      }
      NoBarNoOccurs(a, k);
    }
  }

  /** Splitting `a | rest` at the separator gives `a`, then the parts of `rest`. */
  lemma {:induction false} SplitAtFirstBar(a: string, rest: string)
    requires '|' !in a
    ensures SplitOn(a + Bar + rest, Bar) == [a] + SplitOn(rest, Bar)
  {
    var x := a + Bar + rest;
    BarAfter(a, rest);
    AppendSlices(a + Bar, rest, |a|);
    AppendSlices(a, Bar, |a|);
    assert x[|a|..|a| + 3] == Bar;
    FindFromAt(x, Bar, 0, |a|);
    SplitFromUnfold(x, Bar, 0);
    assert x[0..|a|] == a;
    SplitFromShift(a + Bar, rest, Bar, 0);
  }

  /**
    When no keyword holds a `|`, splitting the suggested title at `" | "`
    gives back the primary keyword, the secondary keyword and the brand.
   */
  lemma {:induction false} SuggestedTitleSplits(kws: Keywords)
    requires '|' !in kws.primary && '|' !in kws.secondary && '|' !in kws.brand
    ensures SplitOn(SuggestedTitle(kws), Bar) == [kws.primary, kws.secondary, kws.brand]
  {
    var p, s, b := kws.primary, kws.secondary, kws.brand;
    var tail := s + Bar + b;
    assert SuggestedTitle(kws) == p + Bar + tail;
    SplitAtFirstBar(p, tail);
    SplitAtFirstBar(s, b);
    NoBarNoSeparator(b);
    SplitOnAbsent(b, Bar);
  }
}
