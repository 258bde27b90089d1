/** Page fetching and metadata extraction. The HTTP GET is a function of
    the attempt index run through the retry executor; the parsed document
    is given as the values of the selector queries the extractor makes
    (`Page`); host-name parsing and date normalization are parameters. */
module Fetch {
  import opened Wrappers
  import opened JsString
  import opened Schema
  import Retry

  /** The selector queries of one parsed page. The title, date and
      language queries see the page as fetched; `firstText`, read only by
      the main-content selection, sees it after the removal of script,
      style, nav, header, footer, aside, iframe and noscript. An absent
      attribute is `None`; `firstText` maps each selector to the text of its
      first matching element and leaves out selectors that match nothing. */
  datatype Page = Page(
    ogTitle: Option<string>,          // meta[property="og:title"] content
    metaTitle: Option<string>,        // meta[name="title"] content
    h1Text: string,                   // first h1's text, "" without one
    titleText: string,                // the title elements' text
    articlePublished: Option<string>, // meta[property="article:published_time"]
    ogPublished: Option<string>,      // meta[property="og:published_time"]
    metaDate: Option<string>,         // meta[name="date"]
    metaPubdate: Option<string>,      // meta[name="pubdate"]
    timeDatetime: Option<string>,     // first time[datetime]'s datetime
    articleModified: Option<string>,  // meta[property="article:modified_time"]
    ogUpdated: Option<string>,        // meta[property="og:updated_time"]
    lastModified: Option<string>,     // meta[name="last-modified"]
    htmlLang: Option<string>,         // html lang
    ogLocale: Option<string>,         // meta[property="og:locale"]
    firstText: map<string, string>
  )

  /** An attribute value as JS truthiness sees it: absent and empty are
      both false. */
  function Attr(o: Option<string>): string {
    o.GetOr([])
  }

  /** The first index at or after `from` holding a non-empty string: the
      operand an `a || b || ...` chain of strings selects. */
  function FirstNonEmpty(xs: seq<string>, from: nat): (r: Option<nat>)
    ensures r.Some? ==> from <= r.value < |xs| && xs[r.value] != []
    ensures r.Some? ==> forall j :: from <= j < r.value ==> xs[j] == []
    ensures r.None? ==> forall j :: from <= j < |xs| ==> xs[j] == []
    decreases |xs| - from
  {
    if from >= |xs| then None
    else if xs[from] != [] then Some(from)
    else FirstNonEmpty(xs, from + 1)
  }

  // ---------------------------------------------------------------------
  // Title and dates
  // ---------------------------------------------------------------------

  /** og:title, meta title and the first h1, in precedence order. */
  function TitleCandidates(p: Page): seq<string> {
    [Attr(p.ogTitle), Attr(p.metaTitle), p.h1Text]
  }

  /** The first non-empty of og:title, meta title and the first h1,
      trimmed; else the trimmed title tag. */
  function ExtractTitle(p: Page): string {
    var c := TitleCandidates(p);
    match FirstNonEmpty(c, 0)
    case Some(k) => Trim(c[k])
    case None => Trim(p.titleText)
  }

  /** The title is the trimmed first non-empty candidate, or the trimmed
      title tag when all three are empty; it is its own trim. */
  lemma ExtractTitleSpec(p: Page)
    ensures var c := TitleCandidates(p);
      || (exists k :: 0 <= k < 3 && c[k] != [] && (forall j :: 0 <= j < k ==> c[j] == []) && ExtractTitle(p) == Trim(c[k]))
      || ((forall j :: 0 <= j < 3 ==> c[j] == []) && ExtractTitle(p) == Trim(p.titleText))
    ensures ExtractTitle(p) == Trim(ExtractTitle(p))
  {
    var c := TitleCandidates(p);
    match FirstNonEmpty(c, 0)
    case Some(k) =>
      assert ExtractTitle(p) == Trim(c[k]);
      TrimIdempotent(c[k]);
    case None =>
      assert ExtractTitle(p) == Trim(p.titleText);
      TrimIdempotent(p.titleText);
  }

  /** The published-date sources in precedence order; the time tag is
      consulted only when no meta tag is set. */
  function PublishedCandidates(p: Page): seq<string> {
    [Attr(p.articlePublished), Attr(p.ogPublished), Attr(p.metaDate), Attr(p.metaPubdate), Attr(p.timeDatetime)]
  }

  /** The updated-date sources in precedence order; there is no time-tag
      fallback. */
  function UpdatedCandidates(p: Page): seq<string> {
    [Attr(p.articleModified), Attr(p.ogUpdated), Attr(p.lastModified)]
  }

  /** The normalized first non-empty source, or `None` when every source is
      empty. A source that fails to normalize gives `None`; the later
      sources are not tried. */
  function DateFrom(c: seq<string>, normalizeDate: string -> Option<string>): (r: Option<string>)
    ensures (forall j :: 0 <= j < |c| ==> c[j] == []) ==> r.None?
    ensures forall k :: 0 <= k < |c| && c[k] != [] && (forall j :: 0 <= j < k ==> c[j] == []) ==>
      r == normalizeDate(c[k])
  {
    match FirstNonEmpty(c, 0)
    case None => None
    case Some(k) => normalizeDate(c[k])
  }

  function ExtractPublishedDate(p: Page, normalizeDate: string -> Option<string>): Option<string> {
    DateFrom(PublishedCandidates(p), normalizeDate)
  }

  function ExtractUpdatedDate(p: Page, normalizeDate: string -> Option<string>): Option<string> {
    DateFrom(UpdatedCandidates(p), normalizeDate)
  }

  /** Which source decides each date: article:published_time hides every
      later source, the time tag decides only when all four meta tags are
      empty, and the updated date never looks at the time tag. */
  lemma DatePrecedence(p: Page, normalizeDate: string -> Option<string>)
    ensures Attr(p.articlePublished) != [] ==> ExtractPublishedDate(p, normalizeDate) == normalizeDate(Attr(p.articlePublished))
    ensures Attr(p.articlePublished) == [] && Attr(p.ogPublished) == [] && Attr(p.metaDate) == [] && Attr(p.metaPubdate) == []
      ==> ExtractPublishedDate(p, normalizeDate) == (if Attr(p.timeDatetime) != [] then normalizeDate(Attr(p.timeDatetime)) else None)
    ensures ExtractUpdatedDate(p, normalizeDate) == ExtractUpdatedDate(p.(timeDatetime := None), normalizeDate)
    ensures Attr(p.articleModified) == [] && Attr(p.ogUpdated) == [] && Attr(p.lastModified) == []
      ==> ExtractUpdatedDate(p, normalizeDate).None?
  {
    var c := PublishedCandidates(p);
    if Attr(p.articlePublished) == [] && Attr(p.ogPublished) == [] && Attr(p.metaDate) == [] && Attr(p.metaPubdate) == [] {
      if Attr(p.timeDatetime) != [] {
        assert c[4] != [] && forall j :: 0 <= j < 4 ==> c[j] == [];
        assert DateFrom(c, normalizeDate) == normalizeDate(c[4]);
      } else {
        assert forall j :: 0 <= j < 5 ==> c[j] == [];
      }
    }
    var u := UpdatedCandidates(p);
    if Attr(p.articleModified) == [] && Attr(p.ogUpdated) == [] && Attr(p.lastModified) == [] {
      assert forall j :: 0 <= j < 3 ==> u[j] == [];
    }
  }

  // ---------------------------------------------------------------------
  // Language and region
  // ---------------------------------------------------------------------

  datatype LangRegion = LangRegion(lang: string, region: string)

  /** The text after the host's last dot. */
  function Tld(host: string): string {
    AfterLast(host, '.')
  }

  predicate IsEuTld(tld: string) {
    tld == "de" || tld == "fr" || tld == "it" || tld == "es"
  }

  /** html lang starting "ja" or a .jp host: Japanese/JP; then the .in,
      .sg and European TLDs; then og:locale starting "ja"; else en/Global. */
  function DetectLangRegion(p: Page, host: string): LangRegion {
    var tld := Tld(host);
    if StartsWith(Attr(p.htmlLang), "ja") || tld == "jp" then LangRegion("日本語", "JP")
    else if tld == "in" then LangRegion("English", "India")
    else if tld == "sg" then LangRegion("English", "Singapore")
    else if IsEuTld(tld) then LangRegion("欧州言語", "EU")
    else if StartsWith(Attr(p.ogLocale), "ja") then LangRegion("日本語", "JP")
    else LangRegion("en", "Global")
  }

  /** One of the five outcomes; JP exactly when html lang starts with "ja",
      the host is .jp, or og:locale starts with "ja" on a host none of the
      country rules claims; Global exactly when neither language attribute
      starts with "ja" and the TLD is none of the seven. */
  lemma DetectLangRegionSpec(p: Page, host: string)
    ensures DetectLangRegion(p, host) in {LangRegion("日本語", "JP"), LangRegion("English", "India"),
      LangRegion("English", "Singapore"), LangRegion("欧州言語", "EU"), LangRegion("en", "Global")}
    ensures DetectLangRegion(p, host).region == "JP" <==>
      || StartsWith(Attr(p.htmlLang), "ja") || Tld(host) == "jp"
      || (Tld(host) != "in" && Tld(host) != "sg" && !IsEuTld(Tld(host)) && StartsWith(Attr(p.ogLocale), "ja"))
    ensures DetectLangRegion(p, host).region == "Global" <==>
      && !StartsWith(Attr(p.htmlLang), "ja") && !StartsWith(Attr(p.ogLocale), "ja")
      && Tld(host) !in {"jp", "in", "sg", "de", "fr", "it", "es"}
  {
    var tld := Tld(host);
    var r := DetectLangRegion(p, host);
    assert |"JP"| == 2 && |"EU"| == 2 && "JP"[0] != "EU"[0];
    assert |"India"| == 5 && |"Singapore"| == 9 && |"Global"| == 6;
    if StartsWith(Attr(p.htmlLang), "ja") || tld == "jp" {
      assert r == LangRegion("日本語", "JP");
    } else if tld == "in" {
      assert r == LangRegion("English", "India");
    } else if tld == "sg" {
      assert r == LangRegion("English", "Singapore");
    } else if IsEuTld(tld) {
      assert r == LangRegion("欧州言語", "EU");
    } else if StartsWith(Attr(p.ogLocale), "ja") {
      assert r == LangRegion("日本語", "JP");
    } else {
      assert r == LangRegion("en", "Global");
    }
  }

  // ---------------------------------------------------------------------
  // Text cleaning and main-content selection
  // ---------------------------------------------------------------------

  predicate IsNewline(c: char) { c == '\n' }

  /** `text.replace(/\s+/g, ' ').replace(/\n+/g, '\n').trim()`. */
  function CleanText(s: string): string {
    Trim(CollapseRuns(CollapseRuns(s, IsSpace, ' '), IsNewline, '\n'))
  }

  /** The shape of `CleanText(s)` after the first replacement alone. */
  predicate Collapsed(t: string) {
    && (forall i :: 0 <= i < |t| && IsSpace(t[i]) ==> t[i] == ' ')
    && (forall i :: 0 <= i < |t| - 1 ==> !(IsSpace(t[i]) && IsSpace(t[i + 1])))
  }

  /** The second replacement has nothing left to do, so cleaning is the
      trim of the collapsed text. */
  lemma CleanTextIsTrimOfCollapsed(s: string)
    ensures Collapsed(CollapseRuns(s, IsSpace, ' '))
    ensures CleanText(s) == Trim(CollapseRuns(s, IsSpace, ' '))
  {
    var t := CollapseRuns(s, IsSpace, ' ');
    CollapseRunsShape(s, IsSpace, ' ');
    CollapseRunsFixpoint(t, IsNewline, '\n');
  }

  /** A slice of a collapsed string is collapsed. */
  lemma CollapsedSlice(t: string, a: nat, b: nat, r: string)
    requires a <= b <= |t| && r == t[a..b] && Collapsed(t)
    ensures Collapsed(r)
  {
    assert forall i :: 0 <= i < |r| ==> r[i] == t[a + i];
  }

  /** The trim of a collapsed string is collapsed. */
  lemma TrimCollapsed(t: string)
    requires Collapsed(t)
    ensures Collapsed(Trim(t))
  {
    var a, r := |t| - |TrimStart(t)|, Trim(t);
    TrimSlice(t);
    CollapsedSlice(t, a, a + |r|, r);
  }

  /** A collapsed string has no newline: its only white space is ' '. */
  lemma CollapsedHasNoNewline(r: string)
    requires Collapsed(r)
    ensures forall i :: 0 <= i < |r| ==> r[i] != '\n'
  {
    forall i | 0 <= i < |r| ensures r[i] != '\n' {
      assert IsSpace(r[i]) ==> r[i] == ' ';
    }
  }

  /** Cleaned text has no leading or trailing white space, contains no
      newline, and no two adjacent white-space characters. */
  lemma CleanTextShape(s: string)
    ensures var r := CleanText(s);
      && (r == [] || (!IsSpace(r[0]) && !IsSpace(r[|r| - 1])))
      && Collapsed(r)
      && (forall i :: 0 <= i < |r| ==> r[i] != '\n')
  {
    CleanTextIsTrimOfCollapsed(s);
    TrimCollapsed(CollapseRuns(s, IsSpace, ' '));
    CollapsedHasNoNewline(CleanText(s));
  }

  lemma CleanTextIdempotent(s: string)
    ensures CleanText(CleanText(s)) == CleanText(s)
  {
    var r := CleanText(s);
    CleanTextShape(s);
    CollapseRunsFixpoint(r, IsSpace, ' ');
    CleanTextIsTrimOfCollapsed(r);
    TrimOfTrimmed(r);
  }

  /** The candidate containers, in the order they are tried. */
  const CandidateSelectors: seq<string> := ["article", "main", ".content", ".post", ".entry", "body"]

  /** Candidate `k` exists and its raw text is longer than 400 characters. */
  predicate IsLongCandidate(p: Page, k: nat)
    requires k < |CandidateSelectors|
  {
    CandidateSelectors[k] in p.firstText && |p.firstText[CandidateSelectors[k]]| > 400
  }

  function FirstLongCandidate(p: Page, from: nat): (r: Option<nat>)
    requires from <= |CandidateSelectors|
    ensures r.Some? ==> from <= r.value < |CandidateSelectors| && IsLongCandidate(p, r.value)
    ensures r.Some? ==> forall j :: from <= j < r.value ==> !IsLongCandidate(p, j)
    ensures r.None? ==> forall j :: from <= j < |CandidateSelectors| ==> !IsLongCandidate(p, j)
    decreases |CandidateSelectors| - from
  {
    if from == |CandidateSelectors| then None
    else if IsLongCandidate(p, from) then Some(from)
    else FirstLongCandidate(p, from + 1)
  }

  /** The body's text, "" when the page has no body. */
  function BodyText(p: Page): string {
    if "body" in p.firstText then p.firstText["body"] else []
  }

  /** The cleaned text of the first long candidate, else of the body. */
  function MainContent(p: Page): string {
    match FirstLongCandidate(p, 0)
    case Some(k) => CleanText(p.firstText[CandidateSelectors[k]])
    case None => CleanText(BodyText(p))
  }

  /** The main content is the cleaned text of the first candidate longer
      than 400 characters, or of the body when there is none. */
  lemma MainContentSource(p: Page)
    ensures || (exists k :: 0 <= k < |CandidateSelectors| && IsLongCandidate(p, k)
                  && (forall j :: 0 <= j < k ==> !IsLongCandidate(p, j))
                  && MainContent(p) == CleanText(p.firstText[CandidateSelectors[k]]))
            || ((forall j :: 0 <= j < |CandidateSelectors| ==> !IsLongCandidate(p, j)) && MainContent(p) == CleanText(BodyText(p)))
  {
    match FirstLongCandidate(p, 0)
    case Some(k) =>
      assert IsLongCandidate(p, k) && MainContent(p) == CleanText(p.firstText[CandidateSelectors[k]]);
    case None =>
  }

  /** The candidate loop of extractMainContent. */
  method ExtractMainContent(p: Page) returns (content: string)
    ensures content == MainContent(p)
  {
    var i := 0;
    while i < |CandidateSelectors|
      invariant i <= |CandidateSelectors|
      invariant FirstLongCandidate(p, 0) == FirstLongCandidate(p, i)
    {
      var selector := CandidateSelectors[i];
      if selector in p.firstText {
        var text := p.firstText[selector];
        if |text| > 400 {
          return CleanText(text);
        }
      }
      i := i + 1;
    }
    return CleanText(BodyText(p));
  }

  // ---------------------------------------------------------------------
  // fetchAndExtract
  // ---------------------------------------------------------------------

  const MinContentLength: nat := 400
  const MaxContentLength: nat := 6000

  /** Shorter than 400 characters: rejected; else cut to 6000. */
  function ContentGate(c: string): (r: Option<string>)
    ensures r.None? <==> |c| < MinContentLength
    ensures r.Some? ==> r.value <= c && |r.value| == if |c| <= MaxContentLength then |c| else MaxContentLength
  {
    if |c| < MinContentLength then None else Some(Take(c, MaxContentLength))
  }

  lemma ContentGateExamples(c399: string, c400: string, c7000: string)
    requires |c399| == 399 && |c400| == 400 && |c7000| == 7000
    ensures ContentGate(c399).None?
    ensures ContentGate(c400) == Some(c400)
    ensures ContentGate(c7000).Some? && |ContentGate(c7000).value| == 6000
  {
  }

  datatype Response = Response(contentType: Option<string>, page: Page)

  /** The options the HTTP GET is retried with. */
  const FetchRetryOptions: Retry.RetryOptions := Retry.RetryOptions(Some(3), Some(1000), None, None, None)

  /** The outcome of fetchAndExtract for the retried GET's result: every
      failure path, including an exhausted retry and a URL that does not
      parse, is `None`. */
  function FetchResult(url: string, got: Retry.RetryResult<Response>, hostOf: string -> Option<string>,
                       normalizeDate: string -> Option<string>): Option<ExtractedData>
  {
    match got
    case Threw(_) => None
    case Returned(resp) =>
      if !Includes(Attr(resp.contentType), "text/html") then None
      else match hostOf(url)
        case None => None
        case Some(host) =>
          match ContentGate(MainContent(resp.page))
          case None => None
          case Some(content) =>
            var lr := DetectLangRegion(resp.page, host);
            Some(ExtractedData(url, host, ExtractTitle(resp.page), content,
              ExtractPublishedDate(resp.page, normalizeDate), ExtractUpdatedDate(resp.page, normalizeDate),
              Some(lr.lang), Some(lr.region)))
  }

  /** What a page the fetcher keeps looks like, and which inputs give
      `None`. */
  lemma FetchResultGates(url: string, got: Retry.RetryResult<Response>, hostOf: string -> Option<string>,
                         normalizeDate: string -> Option<string>)
    ensures got.Threw? ==> FetchResult(url, got, hostOf, normalizeDate).None?
    ensures got.Returned? && !Includes(Attr(got.value.contentType), "text/html") ==> FetchResult(url, got, hostOf, normalizeDate).None?
    ensures got.Returned? && |MainContent(got.value.page)| < MinContentLength ==> FetchResult(url, got, hostOf, normalizeDate).None?
    ensures hostOf(url).None? ==> FetchResult(url, got, hostOf, normalizeDate).None?
    ensures var r := FetchResult(url, got, hostOf, normalizeDate);
      r.Some? ==>
        && got.Returned? && hostOf(url).Some?
        && r.value.url == url && r.value.host == hostOf(url).value
        && r.value.content <= MainContent(got.value.page)
        && MinContentLength <= |r.value.content| <= MaxContentLength
        && r.value.title == ExtractTitle(got.value.page)
  {
  }

  /** fetchAndExtract: the retried GET, then the content-type, host and
      length gates. */
  method FetchAndExtract(url: string, respond: nat -> Retry.Outcome<Response>, hostOf: string -> Option<string>,
                         normalizeDate: string -> Option<string>)
    returns (r: Option<ExtractedData>, calls: nat, delays: seq<nat>)
    ensures r == FetchResult(url, Retry.RetryRun(respond, Retry.Resolve(FetchRetryOptions)).result, hostOf, normalizeDate)
    ensures 1 <= calls <= 3 && |delays| == calls - 1
  {
    var got;
    got, calls, delays := Retry.RetryWith(respond, FetchRetryOptions);
    if got.Threw? {
      return None, calls, delays;
    }
    var resp := got.value;
    var contentType := Attr(resp.contentType);
    if !Includes(contentType, "text/html") {
      return None, calls, delays;
    }
    var host := hostOf(url);
    if host.None? {
      return None, calls, delays;
    }
    var content := ExtractMainContent(resp.page);
    if |content| < MinContentLength {
      return None, calls, delays;
    }
    var trimmedContent := Take(content, MaxContentLength);
    var lr := DetectLangRegion(resp.page, host.value);
    r := Some(ExtractedData(url, host.value, ExtractTitle(resp.page), trimmedContent,
      ExtractPublishedDate(resp.page, normalizeDate), ExtractUpdatedDate(resp.page, normalizeDate),
      Some(lr.lang), Some(lr.region)));
  }
}
