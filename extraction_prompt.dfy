/** The user prompt of the case-study extractor: fixed text with the URL,
    the classification hint, four metadata values and the page content
    put in at fixed places. */
module ExtractionPrompt {
  import opened Wrappers
  import opened Schema

  const Unknown: string := "不明"

  /** A metadata value, or 不明 when it is absent or empty. */
  function OrUnknown(o: Option<string>): (r: string)
    ensures r != []
    ensures o.Some? && o.value != [] ==> r == o.value
    ensures o.None? || o.value == [] ==> r == Unknown
  {
    if o.Some? && o.value != [] then o.value else Unknown
  }

  // The fixed pieces of the template, in order.
  const Intro: string := "以下のWebページから、n8nワークフロー事例の情報を抽出してください。\n\n## URL\n"
  const HintHeader: string := "\n\n## 初期判定された情報の種類\n"
  const HintNote: string := "（ただし、抽出内容に「推定:」が含まれる場合は「推定」に上書きしてください）\n\n## メタデータ\n- 公開日: "
  const UpdatedLabel: string := "\n- 更新日: "
  const LangLabel: string := "\n- 言語: "
  const RegionLabel: string := "\n- 地域: "
  const ContentHeader: string := "\n\n## 本文（最大6000文字）\n"
  const Outro: string := "\n\n---\n\n上記の内容から、20項目のJSONオブジェクトを生成してください。\n本文に明記がない項目は「推定: ...」で補完し、その場合は「情報の種類」を「推定」にしてください。"

  /** The hint and the four metadata values between their labels. */
  function MetadataBlock(hint: InfoHint, publishedDate: Option<string>, updatedDate: Option<string>,
                         lang: Option<string>, region: Option<string>): string
  {
    HintHeader + (hint.Label() + HintNote + OrUnknown(publishedDate)
    + UpdatedLabel + OrUnknown(updatedDate) + LangLabel + OrUnknown(lang)
    + RegionLabel + OrUnknown(region))
  }

  /** Everything before the page content. */
  function Header(url: string, hint: InfoHint, publishedDate: Option<string>, updatedDate: Option<string>,
                  lang: Option<string>, region: Option<string>): string
  {
    Intro + url + MetadataBlock(hint, publishedDate, updatedDate, lang, region) + ContentHeader
  }

  /** generateExtractionPrompt. */
  function GenerateExtractionPrompt(url: string, content: string, hint: InfoHint, publishedDate: Option<string>,
                                    updatedDate: Option<string>, lang: Option<string>, region: Option<string>): string
  {
    Header(url, hint, publishedDate, updatedDate, lang, region) + content + Outro
  }

  /** The three parts of a concatenation are found at their offsets. */
  lemma ConcatParts(a: string, b: string, c: string)
    ensures (a + b + c)[..|a|] == a
    ensures (a + b + c)[|a|..|a| + |b|] == b
    ensures (a + b + c)[|a| + |b|..] == c
  {
  }

  /** The URL follows the "## URL" line verbatim and ends its own line. */
  lemma UrlLine(url: string, content: string, hint: InfoHint, publishedDate: Option<string>,
                updatedDate: Option<string>, lang: Option<string>, region: Option<string>)
    ensures var p := GenerateExtractionPrompt(url, content, hint, publishedDate, updatedDate, lang, region);
      && |Intro| + |url| < |p|
      && p[..|Intro|] == Intro
      && p[|Intro|..|Intro| + |url|] == url
      && p[|Intro| + |url|] == '\n'
  {
    var m := MetadataBlock(hint, publishedDate, updatedDate, lang, region);
    MetadataStartsLine(hint, publishedDate, updatedDate, lang, region);
    assert GenerateExtractionPrompt(url, content, hint, publishedDate, updatedDate, lang, region)
      == Intro + url + m + ContentHeader + content + Outro;
    UrlParts(Intro, url, m, ContentHeader, content, Outro);
  }

  /** The metadata block opens with a line break. */
  lemma MetadataStartsLine(hint: InfoHint, publishedDate: Option<string>, updatedDate: Option<string>,
                           lang: Option<string>, region: Option<string>)
    ensures var m := MetadataBlock(hint, publishedDate, updatedDate, lang, region);
      m != [] && m[0] == '\n'
  {
    assert HintHeader[0] == '\n';
  }

  /** In a concatenation of six parts, the first two are found at their
      offsets and the third starts right after them. */
  lemma UrlParts(intro: string, url: string, m: string, ch: string, content: string, outro: string)
    requires m != []
    ensures var p := intro + url + m + ch + content + outro;
      && |intro| + |url| < |p|
      && p[..|intro|] == intro
      && p[|intro|..|intro| + |url|] == url
      && p[|intro| + |url|] == m[0]
  {
    var p := intro + url + m + ch + content + outro;
    assert p == (intro + url + m) + (ch + content + outro);
    ConcatParts(intro, url, m);
  }

  /** The content comes verbatim right after the content header and is
      followed only by the fixed closing text. */
  lemma ContentBlock(url: string, content: string, hint: InfoHint, publishedDate: Option<string>,
                     updatedDate: Option<string>, lang: Option<string>, region: Option<string>)
    ensures var p := GenerateExtractionPrompt(url, content, hint, publishedDate, updatedDate, lang, region);
      var h := Header(url, hint, publishedDate, updatedDate, lang, region);
      && |h| + |content| + |Outro| == |p|
      && p[..|h|] == h
      && h[|h| - |ContentHeader|..] == ContentHeader
      && p[|h|..|h| + |content|] == content
      && p[|h| + |content|..] == Outro
  {
    var h := Header(url, hint, publishedDate, updatedDate, lang, region);
    var front := Intro + url + MetadataBlock(hint, publishedDate, updatedDate, lang, region);
    assert h[|front|..] == ContentHeader;
    ConcatParts(h, content, Outro);
  }
}
