/** The provider factory and the Anthropic provider's choice of the JSON
    text in a model reply. The SDK calls, the environment and `JSON.parse`
    are outside the model: the environment variable is a parameter. */
module LlmProviders {
  import opened Wrappers
  import opened JsString

  // ---------------------------------------------------------------------
  // LLMProviderFactory.create
  // ---------------------------------------------------------------------

  datatype Provider = OpenAIProvider | AnthropicProvider | OllamaProvider

  const DefaultProvider: string := "openai"

  /** `provider || process.env.LLM_PROVIDER || 'openai'`: an absent or
      empty value falls through to the next. */
  function ProviderName(provider: Option<string>, envProvider: Option<string>): (r: string)
    ensures r != []
    ensures r == DefaultProvider || (provider.Some? && r == provider.value) || (envProvider.Some? && r == envProvider.value)
    ensures provider.Some? && provider.value != [] ==> r == provider.value
    ensures (provider.None? || provider.value == []) && envProvider.Some? && envProvider.value != [] ==> r == envProvider.value
    ensures (provider.None? || provider.value == []) && (envProvider.None? || envProvider.value == []) ==> r == DefaultProvider
  {
    if provider.Some? && provider.value != [] then provider.value
    else if envProvider.Some? && envProvider.value != [] then envProvider.value
    else DefaultProvider
  }

  /** The switch on the lower-cased name; `openai` and every unknown name
      share the default branch. */
  function Create(provider: Option<string>, envProvider: Option<string>): (p: Provider)
    ensures var name := Lower(ProviderName(provider, envProvider));
      && (p == AnthropicProvider <==> name == "anthropic" || name == "claude")
      && (p == OllamaProvider <==> name == "ollama")
      && (p == OpenAIProvider <==> name != "anthropic" && name != "claude" && name != "ollama")
  {
    var name := Lower(ProviderName(provider, envProvider));
    if name == "anthropic" || name == "claude" then AnthropicProvider
    else if name == "ollama" then OllamaProvider
    else OpenAIProvider
  }

  /** With no name given anywhere, the OpenAI provider is built. */
  lemma CreateDefault(provider: Option<string>, envProvider: Option<string>)
    requires provider.None? || provider.value == []
    requires envProvider.None? || envProvider.value == []
    ensures Create(provider, envProvider) == OpenAIProvider
  {
    assert Lower(DefaultProvider) == DefaultProvider;
  }

  /** A non-empty argument overrides the environment, and only its
      lower-cased form matters. */
  lemma CreateIgnoresCaseAndEnv(a: string, b: string, env1: Option<string>, env2: Option<string>)
    requires a != [] && b != [] && Lower(a) == Lower(b)
    ensures Create(Some(a), env1) == Create(Some(b), env2)
  {
  }

  /** `Claude` in any case selects the Anthropic provider. */
  lemma CreateClaude(env: Option<string>)
    ensures Create(Some("Claude"), env) == AnthropicProvider
    ensures Create(Some("CLAUDE"), env) == AnthropicProvider
  {
    assert Lower("Claude") == "claude";
    assert Lower("CLAUDE") == "claude";
  }

  // ---------------------------------------------------------------------
  // AnthropicProvider: the text handed to JSON.parse
  // ---------------------------------------------------------------------

  const FenceOpen: string := "```json"
  const Fence: string := "```"

  /** The last index of `c` in `s`. */
  function LastIndexOf(s: string, c: char): (r: Option<nat>)
    ensures r.Some? ==> r.value < |s| && s[r.value] == c && forall j :: r.value < j < |s| ==> s[j] != c
    ensures r.None? ==> c !in s
  {
    if s == [] then None
    else if s[|s| - 1] == c then Some(|s| - 1)
    else LastIndexOf(s[..|s| - 1], c)
  }

  /** `/```json\s*([\s\S]*?)\s*```/`: the match starts at the first opening
      fence and ends at the first closing fence after it; the capture is
      the text between with white space dropped at both ends (the leading
      `\s*` is greedy and the lazy capture stops before the trailing white
      space). A later opening fence cannot match when the first one does
      not, since no closing fence follows the first. The result is the
      match and its capture. */
  function FenceMatch(text: string): Option<(string, string)> {
    FenceMatchOf(text, FenceOpen, Fence)
  }

  /** The fenced pattern with opening fence `openFence` and closing fence
      `closeFence`. */
  function FenceMatchOf(text: string, openFence: string, closeFence: string): Option<(string, string)> {
    match IndexOfFrom(text, openFence, 0)
    case None => None
    case Some(p) => FenceFrom(text, openFence, closeFence, p)
  }

  /** The fenced pattern once the opening fence is found at `p`. */
  function FenceFrom(text: string, openFence: string, closeFence: string, p: nat): Option<(string, string)> {
    match IndexOfFrom(text, closeFence, p + |openFence|)
    case None => None
    case Some(q) => FencedSpan(text, |openFence|, |closeFence|, p, q)
  }

  /** The match from `p` to the end of the closing fence at `q`, and the
      trimmed text between the fences. */
  function FencedSpan(text: string, openLen: nat, closeLen: nat, p: nat, q: nat): Option<(string, string)> {
    if p + openLen <= q && q + closeLen <= |text| then
      Some((text[p..q + closeLen], Trim(text[p + openLen..q])))
    else None
  }

  /** The fenced pattern matches exactly when an opening fence is followed,
      somewhere after it, by a closing one. */
  lemma FenceMatchSpec(text: string, openFence: string, closeFence: string)
    ensures FenceMatchOf(text, openFence, closeFence).Some? ==>
      exists p: nat, q: nat :: p + |openFence| <= q && OccursAt(text, openFence, p) && OccursAt(text, closeFence, q)
    ensures FenceMatchOf(text, openFence, closeFence).None? ==>
      forall p: nat, q: nat :: p + |openFence| <= q && OccursAt(text, openFence, p) ==> !OccursAt(text, closeFence, q)
  {
    var first := IndexOfFrom(text, openFence, 0);
    if first.Some? {
      var p := first.value;
      var close := IndexOfFrom(text, closeFence, p + |openFence|);
      if close.None? {
        forall p': nat, q: nat | p' + |openFence| <= q && OccursAt(text, openFence, p')
          ensures !OccursAt(text, closeFence, q)
        {
          assert p <= p';
        }
      }
    }
  }

  /** The first opening fence at `p` and the first closing fence after it
      at `q` delimit the match and its capture. */
  lemma FenceMatchIs(text: string, openFence: string, closeFence: string, p: nat, q: nat)
    requires IndexOfFrom(text, openFence, 0) == Some(p)
    requires IndexOfFrom(text, closeFence, p + |openFence|) == Some(q)
    ensures FenceMatchOf(text, openFence, closeFence) == FencedSpan(text, |openFence|, |closeFence|, p, q)
  {
    assert FenceMatchOf(text, openFence, closeFence) == FenceFrom(text, openFence, closeFence, p);
  }

  /** A match runs at least to the end of its closing fence. */
  lemma FenceMatchEndsWithFence(text: string, openFence: string, closeFence: string)
    ensures FenceMatchOf(text, openFence, closeFence).Some? ==>
      |FenceMatchOf(text, openFence, closeFence).value.0| >= |openFence| + |closeFence|
  {
    match IndexOfFrom(text, openFence, 0)
    case None =>
    case Some(p) =>
      match IndexOfFrom(text, closeFence, p + |openFence|)
      case None =>
        assert FenceMatchOf(text, openFence, closeFence) == FenceFrom(text, openFence, closeFence, p);
      case Some(q) =>
        FenceMatchIs(text, openFence, closeFence, p, q);
  }

  /** `/\{[\s\S]*\}/`: from the first `{` to the last `}` when that one
      comes after it. */
  function BraceMatch(text: string): (r: Option<string>)
    ensures r.Some? ==> r.value != [] && r.value[0] == '{' && r.value[|r.value| - 1] == '}'
    ensures r.Some? <==> exists i, j :: 0 <= i < j < |text| && text[i] == '{' && text[j] == '}'
  {
    match IndexOfFrom(text, "{", 0)
    case None =>
      assert forall i :: 0 <= i < |text| && text[i] == '{' ==> OccursAt(text, "{", i);
      None
    case Some(a) =>
      match LastIndexOf(text, '}')
      case None => None
      case Some(b) =>
        if a < b then
          assert text[a] == "{"[0];
          Some(text[a..b + 1])
        else
          assert forall i :: 0 <= i < |text| && text[i] == '{' ==> OccursAt(text, "{", i);
          None
  }

  /** `jsonMatch[1] || jsonMatch[0]` over the two alternatives; None is the
      `return null` branch. */
  function JsonPayload(text: string): (r: Option<string>)
    ensures r.Some? ==> r.value != []
  {
    match FenceMatch(text)
    case Some((whole, capture)) =>
      FenceMatchEndsWithFence(text, FenceOpen, Fence);
      Some(if capture != [] then capture else whole)
    case None => BraceMatch(text)
  }

  /** Nothing reaches JSON.parse exactly when neither a fenced block nor a
      `{` followed later by a `}` is in the text. */
  lemma JsonPayloadNone(text: string)
    ensures JsonPayload(text).None? <==>
      FenceMatch(text).None? && forall i, j :: 0 <= i < j < |text| && text[i] == '{' ==> text[j] != '}'
  {
    if FenceMatch(text).None? {
      assert JsonPayload(text) == BraceMatch(text);
    }
  }

  /** Positions holding no first character of `sub` are skipped by the
      search. */
  lemma {:induction false} IndexOfFromSkip(s: string, sub: string, from: nat, k: nat)
    requires sub != [] && from <= k <= |s|
    requires forall j :: from <= j < k ==> s[j] != sub[0]
    ensures IndexOfFrom(s, sub, from) == IndexOfFrom(s, sub, k)
    decreases k - from
  {
    if from < k {
      if from + |sub| <= |s| {
        assert s[from..from + |sub|][0] == s[from];
      }
      assert !OccursAt(s, sub, from);
      IndexOfFromSkip(s, sub, from + 1, k);
    }
  }

  /** An occurrence at `k` is found by a search starting there. */
  lemma IndexOfFromHere(s: string, sub: string, k: nat)
    requires OccursAt(s, sub, k)
    ensures IndexOfFrom(s, sub, k) == Some(k)
  {
  }

  /** In `text == pre + openFence + inner + closeFence + post`, where both
      fences start with `c` and `c` is in neither `pre` nor `inner`, the
      fences around `inner` are the first ones. */
  lemma FencesAround(text: string, pre: string, openFence: string, inner: string, closeFence: string, post: string,
                     c: char, p: nat, q: nat)
    requires text == pre + openFence + inner + closeFence + post
    requires p == |pre| && q == p + |openFence| + |inner|
    requires openFence != [] && openFence[0] == c && closeFence != [] && closeFence[0] == c
    requires c !in pre && c !in inner
    ensures IndexOfFrom(text, openFence, 0) == Some(p)
    ensures IndexOfFrom(text, closeFence, p + |openFence|) == Some(q)
    ensures text[p + |openFence|..q] == inner
    ensures text[p..q + |closeFence|] == openFence + inner + closeFence
  {
    var m := p + |openFence|;
    assert forall j :: 0 <= j < p ==> text[j] == pre[j];
    assert forall j :: m <= j < q ==> text[j] == inner[j - m];
    assert text[p..m] == openFence;
    assert text[m..q] == inner;
    assert text[q..q + |closeFence|] == closeFence;
    assert text[p..q + |closeFence|] == openFence + inner + closeFence;
    FencesFound(text, openFence, closeFence, p, q, c);
  }

  /** The search finds an opening fence at `p` and a closing fence at `q`
      when no position before `p`, and none between the fences, holds the
      fences' first character `c`. */
  lemma FencesFound(text: string, openFence: string, closeFence: string, p: nat, q: nat, c: char)
    requires openFence != [] && openFence[0] == c && closeFence != [] && closeFence[0] == c
    requires p + |openFence| <= q
    requires OccursAt(text, openFence, p) && OccursAt(text, closeFence, q)
    requires forall j :: 0 <= j < p ==> text[j] != c
    requires forall j :: p + |openFence| <= j < q ==> text[j] != c
    ensures IndexOfFrom(text, openFence, 0) == Some(p)
    ensures IndexOfFrom(text, closeFence, p + |openFence|) == Some(q)
  {
    IndexOfFromSkip(text, openFence, 0, p);
    IndexOfFromHere(text, openFence, p);
    IndexOfFromSkip(text, closeFence, p + |openFence|, q);
    IndexOfFromHere(text, closeFence, q);
  }

  /** White space holds no backtick. */
  lemma SpaceNoBacktick(ws: string)
    requires AllSpace(ws)
    ensures '`' !in ws
  {
    forall i | 0 <= i < |ws| ensures ws[i] != '`' {
      assert IsSpace(ws[i]);
    }
  }

  /** A fenced body is what JSON.parse receives, whatever braces surround
      the fence or stand inside it. */
  lemma FencedPayload(pre: string, ws1: string, body: string, ws2: string, post: string)
    requires '`' !in pre && '`' !in body
    requires AllSpace(ws1) && AllSpace(ws2)
    requires body != [] && !IsSpace(body[0]) && !IsSpace(body[|body| - 1])
    ensures JsonPayload(pre + FenceOpen + ws1 + body + ws2 + Fence + post) == Some(body)
  {
    var inner := ws1 + body + ws2;
    SpaceNoBacktick(ws1);
    SpaceNoBacktick(ws2);
    assert '`' !in inner;
    var text := pre + FenceOpen + inner + Fence + post;
    assert text == pre + FenceOpen + ws1 + body + ws2 + Fence + post;
    assert FenceOpen[0] == '`' && Fence[0] == '`';
    var p, q := |pre|, |pre| + |FenceOpen| + |inner|;
    FencesAround(text, pre, FenceOpen, inner, Fence, post, '`', p, q);
    FenceMatchIs(text, FenceOpen, Fence, p, q);
    TrimPadded(ws1, body, ws2);
  }

  /** An empty fence yields an empty capture, so the whole match, fences
      included, is what JSON.parse receives. */
  lemma EmptyFencePayload(pre: string, ws: string, post: string)
    requires '`' !in pre && AllSpace(ws)
    ensures JsonPayload(pre + FenceOpen + ws + Fence + post) == Some(FenceOpen + ws + Fence)
  {
    SpaceNoBacktick(ws);
    var text := pre + FenceOpen + ws + Fence + post;
    assert FenceOpen[0] == '`' && Fence[0] == '`';
    var p, q := |pre|, |pre| + |FenceOpen| + |ws|;
    FencesAround(text, pre, FenceOpen, ws, Fence, post, '`', p, q);
    FenceMatchIs(text, FenceOpen, Fence, p, q);
    TrimStartAllSpace(ws);
  }

  /** Without a fence the span runs from the first `{` to the last `}`,
      braces in between included. */
  lemma BracePayload(pre: string, mid: string, post: string)
    requires '{' !in pre && '}' !in post
    requires FenceMatch(pre + "{" + mid + "}" + post).None?
    ensures JsonPayload(pre + "{" + mid + "}" + post) == Some("{" + mid + "}")
  {
    var text := pre + "{" + mid + "}" + post;
    var a, b := |pre|, |pre| + 1 + |mid|;
    BracesAround(text, pre, mid, post, a, b);
    assert JsonPayload(text) == BraceMatch(text);
  }

  /** In `text == pre + "{" + mid + "}" + post`, with no `{` in `pre` and no
      `}` in `post`, the braces around `mid` are the first `{` and the last
      `}`. */
  lemma BracesAround(text: string, pre: string, mid: string, post: string, a: nat, b: nat)
    requires text == pre + "{" + mid + "}" + post
    requires a == |pre| && b == a + 1 + |mid|
    requires '{' !in pre && '}' !in post
    ensures IndexOfFrom(text, "{", 0) == Some(a)
    ensures LastIndexOf(text, '}') == Some(b)
    ensures text[a..b + 1] == "{" + mid + "}"
  {
    FirstBrace(text, pre, mid, post);
    LastBrace(text, pre, mid, post);
    MiddleSlice(text, pre, mid, post);
  }

  /** The braced middle of `pre + "{" + mid + "}" + post` sits just after
      `pre`. */
  lemma MiddleSlice(text: string, pre: string, mid: string, post: string)
    requires text == pre + "{" + mid + "}" + post
    ensures text[|pre|..|pre| + 1 + |mid| + 1] == "{" + mid + "}"
  {
    var inner := "{" + mid + "}";
    assert forall j :: 0 <= j < |inner| ==> text[|pre| + j] == inner[j];
  }

  /** The first `{` of `pre + "{" + mid + "}" + post` is the one after `pre`
      when `pre` has none. */
  lemma FirstBrace(text: string, pre: string, mid: string, post: string)
    requires text == pre + "{" + mid + "}" + post && '{' !in pre
    ensures IndexOfFrom(text, "{", 0) == Some(|pre|)
  {
    var a := |pre|;
    assert forall j :: 0 <= j < a ==> text[j] == pre[j];
    assert text[a..a + 1] == "{";
    IndexOfFromSkip(text, "{", 0, a);
    IndexOfFromHere(text, "{", a);
  }

  /** The last `}` of `pre + "{" + mid + "}" + post` is the one before `post`
      when `post` has none. */
  lemma LastBrace(text: string, pre: string, mid: string, post: string)
    requires text == pre + "{" + mid + "}" + post && '}' !in post
    ensures LastIndexOf(text, '}') == Some(|pre| + 1 + |mid|)
  {
    var b := |pre| + 1 + |mid|;
    assert text[b] == '}';
    forall j | b < j < |text| ensures text[j] != '}' {
      assert text[j] == post[j - b - 1];
    }
    LastIndexOfAt(text, '}', b);
  }

  /** The last `c` is at `b` when none follows it. */
  lemma LastIndexOfAt(s: string, c: char, b: nat)
    requires b < |s| && s[b] == c
    requires forall j :: b < j < |s| ==> s[j] != c
    ensures LastIndexOf(s, c) == Some(b)
  {
  }
}
