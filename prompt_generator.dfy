/** Template-driven prompts: the trimmed system prompt, `{{ key }}`
    substitution of seven variables into the user template, and the empty
    schema example. */
module PromptGenerator {
  import opened Wrappers
  import opened JsString
  import opened FirstSeen
  import opened Schema
  import ExtractionPrompt

  /** getSystemPrompt. */
  function GetSystemPrompt(systemPrompt: string): string {
    Trim(systemPrompt)
  }

  /** The system prompt loses only surrounding white space: the result
      neither starts nor ends with it, never lengthens, and an already
      trimmed text is kept. */
  lemma GetSystemPromptShape(systemPrompt: string)
    ensures var t := GetSystemPrompt(systemPrompt);
      && (t == [] || (!IsSpace(t[0]) && !IsSpace(t[|t| - 1])))
      && |t| <= |systemPrompt|
      && (systemPrompt == [] || (!IsSpace(systemPrompt[0]) && !IsSpace(systemPrompt[|systemPrompt| - 1])) ==> t == systemPrompt)
  {
    TrimKeepsTrimmed(systemPrompt);
  }

  /** Trimming the system prompt again changes nothing. */
  lemma GetSystemPromptIdempotent(systemPrompt: string)
    ensures GetSystemPrompt(GetSystemPrompt(systemPrompt)) == GetSystemPrompt(systemPrompt)
  {
    TrimIdempotent(systemPrompt);
  }

  // ---------------------------------------------------------------------
  // One substitution pass: prompt.replace(/\{\{\s*key\s*\}\}/g, value)
  // ---------------------------------------------------------------------

  /** The length of the placeholder for `key` starting at `i`, if there is
      one. For a key that starts and ends with a non-space character, as
      all seven keys do, the greedy `\s*` never needs to give back a
      character, so skipping all white space is the regular expression's
      match. */
  function PlaceholderLen(s: string, i: nat, key: string): (r: Option<nat>)
    ensures r.Some? ==> i + r.value <= |s| && r.value >= 4 + |key|
  {
    if !OccursAt(s, "{{", i) then None
    else
      var j := SkipSpaces(s, i + 2);
      if !OccursAt(s, key, j) then None
      else
        var k := SkipSpaces(s, j + |key|);
        if OccursAt(s, "}}", k) then Some(k + 2 - i) else None
  }

  /** The global replacement: scan left to right, and after a match resume
      at its end. */
  function ReplaceAll(s: string, key: string, value: string): string
    decreases |s|
  {
    if s == [] then []
    else match PlaceholderLen(s, 0, key)
      case Some(n) => value + ReplaceAll(s[n..], key, value)
      case None => [s[0]] + ReplaceAll(s[1..], key, value)
  }

  /** Text before the first '{' is kept as it is. */
  lemma {:induction false} ReplaceAllKeepsPlainPrefix(a: string, b: string, key: string, value: string)
    requires '{' !in a
    ensures ReplaceAll(a + b, key, value) == a + ReplaceAll(b, key, value)
    decreases |a|
  {
    if a != [] {
      var s := a + b;
      assert s[0] == a[0] && a[0] != '{';
      assert !OccursAt(s, "{{", 0) by {
        if 2 <= |s| {
          assert s[0..2][0] == s[0];
        }
      }
      assert PlaceholderLen(s, 0, key).None?;
      assert ReplaceAll(s, key, value) == [a[0]] + ReplaceAll(s[1..], key, value);
      assert s[1..] == a[1..] + b;
      ReplaceAllKeepsPlainPrefix(a[1..], b, key, value);
      assert a == [a[0]] + a[1..];
    } else {
      assert a + b == b;
    }
  }

  /** A template without '{' comes through every pass unchanged. */
  lemma ReplaceAllPlain(s: string, key: string, value: string)
    requires '{' !in s
    ensures ReplaceAll(s, key, value) == s
  {
    ReplaceAllKeepsPlainPrefix(s, [], key, value);
    assert s + [] == s;
  }

  /** A placeholder `{{ key }}`, with any white space inside the braces,
      becomes the value, and the scan goes on after it. */
  lemma ReplaceAllPlaceholder(sp1: string, key: string, sp2: string, rest: string, value: string)
    requires AllSpace(sp1) && AllSpace(sp2)
    requires key != [] && !IsSpace(key[0])
    ensures ReplaceAll("{{" + sp1 + key + sp2 + "}}" + rest, key, value) == value + ReplaceAll(rest, key, value)
  {
    var p := "{{" + sp1 + key + sp2 + "}}";
    var s := p + rest;
    var j := 2 + |sp1|;
    var k := j + |key| + |sp2|;
    PlaceholderShape(sp1, key, sp2, rest, j, k);
    PlaceholderLenOf(s, key, j, k);
    assert k + 2 == |p|;
    assert s[|p|..] == rest;
  }

  /** Where the parts of a placeholder sit in the text it starts. */
  lemma PlaceholderShape(sp1: string, key: string, sp2: string, rest: string, j: nat, k: nat)
    requires AllSpace(sp1) && AllSpace(sp2)
    requires j == 2 + |sp1| && k == j + |key| + |sp2|
    ensures |"{{" + sp1 + key + sp2 + "}}"| == k + 2
    ensures OccursAt("{{" + sp1 + key + sp2 + "}}" + rest, "{{", 0)
    ensures forall m :: 2 <= m < j ==> IsSpace(("{{" + sp1 + key + sp2 + "}}" + rest)[m])
    ensures OccursAt("{{" + sp1 + key + sp2 + "}}" + rest, key, j)
    ensures forall m :: j + |key| <= m < k ==> IsSpace(("{{" + sp1 + key + sp2 + "}}" + rest)[m])
    ensures OccursAt("{{" + sp1 + key + sp2 + "}}" + rest, "}}", k)
  {
    var s := "{{" + sp1 + key + sp2 + "}}" + rest;
    assert s == "{{" + (sp1 + (key + (sp2 + ("}}" + rest))));
    PlaceholderShapeFront(sp1, key + (sp2 + ("}}" + rest)), s);
    PlaceholderShapeBack(key, sp2, rest, s, j, k);
  }

  /** The opening braces and the white space after them. */
  lemma PlaceholderShapeFront(sp1: string, tail: string, s: string)
    requires AllSpace(sp1) && s == "{{" + (sp1 + tail)
    ensures OccursAt(s, "{{", 0)
    ensures forall m :: 2 <= m < 2 + |sp1| ==> IsSpace(s[m])
    ensures s[2 + |sp1|..] == tail
  {
    assert s[..2] == "{{";
    assert forall m :: 2 <= m < 2 + |sp1| ==> s[m] == sp1[m - 2];
  }

  /** The key, the white space after it and the closing braces. */
  lemma PlaceholderShapeBack(key: string, sp2: string, rest: string, s: string, j: nat, k: nat)
    requires AllSpace(sp2) && j <= |s| && s[j..] == key + (sp2 + ("}}" + rest))
    requires k == j + |key| + |sp2|
    ensures OccursAt(s, key, j)
    ensures forall m :: j + |key| <= m < k ==> IsSpace(s[m])
    ensures OccursAt(s, "}}", k)
  {
    var t := s[j..];
    assert t[..|key|] == key;
    assert s[j..j + |key|] == t[..|key|];
    assert forall m :: j + |key| <= m < k ==> s[m] == t[m - j] == sp2[m - j - |key|];
    assert t[|key| + |sp2|..|key| + |sp2| + 2] == "}}";
    assert s[k..k + 2] == t[|key| + |sp2|..|key| + |sp2| + 2];
  }

  /** The placeholder's length, from where its parts sit. */
  lemma PlaceholderLenOf(s: string, key: string, j: nat, k: nat)
    requires key != [] && !IsSpace(key[0])
    requires 2 <= j && OccursAt(s, "{{", 0) && OccursAt(s, key, j) && OccursAt(s, "}}", k)
    requires forall m :: 2 <= m < j ==> IsSpace(s[m])
    requires j + |key| <= k
    requires forall m :: j + |key| <= m < k ==> IsSpace(s[m])
    ensures PlaceholderLen(s, 0, key) == Some(k + 2)
  {
    assert s[j] == s[j..j + |key|][0] == key[0];
    SkipSpacesOver(s, 2, j);
    assert s[k] == s[k..k + 2][0] == '}';
    SkipSpacesOver(s, j + |key|, k);
  }

  /** The text `{{inner}}`. */
  function Braced(inner: string): string {
    "{{" + inner + "}}"
  }

  /** A key shaped as all seven are: non-empty, without '}' and without
      white space at either end. */
  predicate PlainKey(key: string) {
    key != [] && !IsSpace(key[0]) && !IsSpace(key[|key| - 1]) && '}' !in key
  }

  /** A placeholder without '}' inside matches the key only when its inner
      text, trimmed, is the key. */
  lemma PlaceholderMatchIsKey(inner: string, key: string, rest: string)
    requires '}' !in inner && PlainKey(key)
    ensures PlaceholderLen(Braced(inner) + rest, 0, key).Some? ==> Trim(inner) == key
  {
    var s := Braced(inner) + rest;
    BracedParts(inner, rest, s);
    MatchAtFrontIsKey(inner, key, s);
  }

  /** The same for any text that holds `{{inner}` at its front. */
  lemma MatchAtFrontIsKey(inner: string, key: string, s: string)
    requires |s| >= |inner| + 4 && s[2..2 + |inner|] == inner
    requires s[2 + |inner|] == '}' && forall m :: 2 <= m < 2 + |inner| ==> s[m] != '}'
    requires PlainKey(key)
    ensures PlaceholderLen(s, 0, key).Some? ==> Trim(inner) == key
  {
    var j := SkipSpaces(s, 2);
    var k := SkipSpaces(s, j + |key|);
    PlaceholderLenParts(s, key, j, k);
    if OccursAt(s, key, j) && OccursAt(s, "}}", k) {
      MatchedPositions(inner, key, s, j, k);
      InnerTrimsToKey(inner, key, s, j);
    }
  }

  /** What a match at the front consists of. */
  lemma PlaceholderLenParts(s: string, key: string, j: nat, k: nat)
    requires j == SkipSpaces(s, 2) && k == SkipSpaces(s, j + |key|)
    ensures PlaceholderLen(s, 0, key).Some? ==> OccursAt(s, key, j) && OccursAt(s, "}}", k)
  {
    if PlaceholderLen(s, 0, key).Some? {
      assert OccursAt(s, "{{", 0);
      assert SkipSpaces(s, 0 + 2) == j;
      assert OccursAt(s, key, j);
      assert SkipSpaces(s, j + |key|) == k;
    }
  }

  /** The key of a match inside `{{inner}}` ends within the inner text, and
      the closing braces follow the inner text. */
  lemma MatchedPositions(inner: string, key: string, s: string, j: nat, k: nat)
    requires |s| >= |inner| + 4
    requires s[2 + |inner|] == '}' && forall m :: 2 <= m < 2 + |inner| ==> s[m] != '}'
    requires PlainKey(key)
    requires j == SkipSpaces(s, 2) && OccursAt(s, key, j)
    requires k == SkipSpaces(s, j + |key|) && OccursAt(s, "}}", k)
    ensures j + |key| <= 2 + |inner| == k
  {
    var n := |inner|;
    assert j <= 2 + n by {
      assert !IsSpace(s[2 + n]);
    }
    assert j + |key| <= 2 + n by {
      forall m | j <= m < j + |key| ensures s[m] != '}' {
        assert s[m] == s[j..j + |key|][m - j] == key[m - j];
      }
    }
    assert 2 + n <= k by {
      assert s[k] == s[k..k + 2][0] == '}';
    }
    assert k <= 2 + n by {
      assert !IsSpace(s[2 + n]);
    }
  }

  /** The inner text is the key between white space only, so it trims to
      the key. */
  lemma InnerTrimsToKey(inner: string, key: string, s: string, j: nat)
    requires |s| >= |inner| + 4 && s[2..2 + |inner|] == inner
    requires 2 <= j && j + |key| <= 2 + |inner| && OccursAt(s, key, j)
    requires forall m :: 2 <= m < j ==> IsSpace(s[m])
    requires forall m :: j + |key| <= m < 2 + |inner| ==> IsSpace(s[m])
    requires PlainKey(key)
    ensures Trim(inner) == key
  {
    var n := |inner|;
    var front := s[2..j];
    var back := s[j + |key|..2 + n];
    SplitPadded(s, 2, j, j + |key|, 2 + n);
    assert inner == front + key + back;
    TrimPadded(front, key, back);
  }

  /** Where the inner text and the closing braces of `s` sit. */
  lemma BracedParts(inner: string, rest: string, s: string)
    requires s == Braced(inner) + rest
    ensures |s| >= |inner| + 4 && s[2..2 + |inner|] == inner
    ensures s[2 + |inner|] == '}'
    ensures '}' !in inner ==> forall m :: 2 <= m < 2 + |inner| ==> s[m] != '}'
  {
  }

  /** A slice cut at three points is the concatenation of its parts. */
  lemma SplitPadded(s: string, a: nat, b: nat, c: nat, d: nat)
    requires a <= b <= c <= d <= |s|
    ensures s[a..d] == s[a..b] + s[b..c] + s[c..d]
  {
  }

  /** A placeholder without braces inside, whose trimmed inner text is not
      the key, survives a pass, and the scan goes on after it. (With a '{'
      inside, `{{{url}}` would hold a placeholder one position on.) */
  lemma ReplaceAllOtherPlaceholder(inner: string, key: string, rest: string, value: string)
    requires '{' !in inner && '}' !in inner
    requires PlainKey(key) && Trim(inner) != key
    ensures ReplaceAll(Braced(inner) + rest, key, value) == Braced(inner) + ReplaceAll(rest, key, value)
  {
    var u := (inner + "}}") + rest;
    var t := ['{'] + u;
    BracesRegrouped(inner, rest);
    PlaceholderMatchIsKey(inner, key, rest);
    OtherPlaceholderNoMatch(inner, key, rest);
    ReplaceAllUnmatched(['{'] + t, key, value);
    ReplaceAllUnmatched(t, key, value);
    ReplaceAllKeepsPlainPrefix(inner + "}}", rest, key, value);
    BracesRegrouped(inner, ReplaceAll(rest, key, value));
  }

  /** Plain text before such a placeholder changes nothing about that. */
  lemma ReplaceAllKeepsOtherPlaceholder(a: string, inner: string, key: string, rest: string, value: string)
    requires '{' !in a && '{' !in inner && '}' !in inner
    requires PlainKey(key) && Trim(inner) != key
    ensures ReplaceAll(a + Braced(inner) + rest, key, value) == a + Braced(inner) + ReplaceAll(rest, key, value)
  {
    var p := Braced(inner);
    Regroup(a, p, rest);
    Regroup(a, p, ReplaceAll(rest, key, value));
    ReplaceAllKeepsPlainPrefix(a, p + rest, key, value);
    ReplaceAllOtherPlaceholder(inner, key, rest, value);
  }

  lemma Regroup(x: string, y: string, z: string)
    ensures x + y + z == x + (y + z)
  {
  }

  /** Where no placeholder starts, the first character is copied. */
  lemma ReplaceAllUnmatched(s: string, key: string, value: string)
    requires s != [] && PlaceholderLen(s, 0, key).None?
    ensures ReplaceAll(s, key, value) == [s[0]] + ReplaceAll(s[1..], key, value)
  {
  }

  lemma BracesRegrouped(inner: string, r: string)
    ensures ['{'] + (['{'] + ((inner + "}}") + r)) == Braced(inner) + r
    ensures (['{'] + (['{'] + ((inner + "}}") + r)))[1..] == ['{'] + ((inner + "}}") + r)
    ensures (['{'] + ((inner + "}}") + r))[1..] == (inner + "}}") + r
  {
  }

  /** The second brace of such a placeholder starts no match either. */
  lemma OtherPlaceholderNoMatch(inner: string, key: string, rest: string)
    requires '{' !in inner
    ensures PlaceholderLen(['{'] + ((inner + "}}") + rest), 0, key).None?
  {
    var t := ['{'] + ((inner + "}}") + rest);
    assert t[1] != '{' by {
      if inner == [] {
        assert t[1] == '}';
      } else {
        assert t[1] == inner[0];
      }
    }
    assert !OccursAt(t, "{{", 0) by {
      assert t[0..2][1] == t[1];
    }
  }

  /** Skipping from `i` over white space up to a non-space character at `j`
      stops at `j`. */
  lemma {:induction false} SkipSpacesOver(s: string, i: nat, j: nat)
    requires i <= j < |s| && !IsSpace(s[j])
    requires forall k :: i <= k < j ==> IsSpace(s[k])
    ensures SkipSpaces(s, i) == j
    decreases j - i
  {
    if i < j {
      SkipSpacesOver(s, i + 1, j);
    }
  }

  // ---------------------------------------------------------------------
  // generateUserPrompt
  // ---------------------------------------------------------------------

  /** The variable names in the order they are substituted. */
  const VariableNames: seq<string> :=
    ["url", "info_type", "published_date", "updated_date", "detected_lang", "detected_region", "content"]

  /** The optional page metadata, in variable order. */
  function Metadata(extracted: ExtractedData): seq<Option<string>> {
    [extracted.publishedDate, extracted.updatedDate, extracted.detectedLang, extracted.detectedRegion]
  }

  /** The seven variables in substitution order: url and content verbatim,
      the hint as its Japanese label, and each metadata value with a
      missing or empty one shown as "不明". */
  function Variables(extracted: ExtractedData, hint: InfoHint): (vars: seq<(string, string)>)
    ensures |vars| == 7
    ensures forall i :: 0 <= i < 7 ==> vars[i].0 == VariableNames[i]
    ensures vars[0].1 == extracted.url && vars[6].1 == extracted.content
    ensures vars[1].1 == "一次情報" <==> hint == PrimaryHint
    ensures vars[1].1 == "二次情報" <==> hint == SecondaryHint
    ensures forall i :: 0 <= i < 4 ==>
      vars[i + 2].1 == (if Metadata(extracted)[i].Some? && Metadata(extracted)[i].value != []
                        then Metadata(extracted)[i].value else "不明")
  {
    [ ("url", extracted.url),
      ("info_type", hint.Label()),
      ("published_date", ExtractionPrompt.OrUnknown(extracted.publishedDate)),
      ("updated_date", ExtractionPrompt.OrUnknown(extracted.updatedDate)),
      ("detected_lang", ExtractionPrompt.OrUnknown(extracted.detectedLang)),
      ("detected_region", ExtractionPrompt.OrUnknown(extracted.detectedRegion)),
      ("content", extracted.content) ]
  }

  /** The passes in order, each applied to the previous pass's output. */
  function SubstituteAll(prompt: string, vars: seq<(string, string)>): string
    decreases |vars|
  {
    if vars == [] then prompt else SubstituteAll(ReplaceAll(prompt, vars[0].0, vars[0].1), vars[1..])
  }

  /** A template without '{' is only trimmed. */
  lemma {:induction false} SubstituteAllPlain(prompt: string, vars: seq<(string, string)>)
    requires '{' !in prompt
    ensures SubstituteAll(prompt, vars) == prompt
    decreases |vars|
  {
    if vars != [] {
      ReplaceAllPlain(prompt, vars[0].0, vars[0].1);
      SubstituteAllPlain(prompt, vars[1..]);
    }
  }

  /** A placeholder naming none of the keys survives every pass, with the
      text before it untouched and the passes going on after it. */
  lemma {:induction false} SubstituteAllOtherPlaceholder(a: string, inner: string, rest: string, vars: seq<(string, string)>)
    requires '{' !in a && '{' !in inner && '}' !in inner
    requires forall i :: 0 <= i < |vars| ==> PlainKey(vars[i].0) && Trim(inner) != vars[i].0
    ensures SubstituteAll(a + Braced(inner) + rest, vars) == a + Braced(inner) + SubstituteAll(rest, vars)
    decreases |vars|
  {
    if vars != [] {
      ReplaceAllKeepsOtherPlaceholder(a, inner, vars[0].0, rest, vars[0].1);
      SubstituteAllOtherPlaceholder(a, inner, ReplaceAll(rest, vars[0].0, vars[0].1), vars[1..]);
    }
  }

  /** The seven variable names are plain keys. */
  lemma VariableNamesPlain()
    ensures forall i :: 0 <= i < |VariableNames| ==> PlainKey(VariableNames[i])
  {
  }

  /** In the user template, a placeholder whose trimmed name is none of the
      seven variables is left as it is. */
  lemma UnknownPlaceholderSurvives(a: string, inner: string, rest: string, extracted: ExtractedData, hint: InfoHint)
    requires '{' !in a && '{' !in inner && '}' !in inner
    requires Trim(inner) !in VariableNames
    ensures var vars := Variables(extracted, hint);
      SubstituteAll(a + Braced(inner) + rest, vars) == a + Braced(inner) + SubstituteAll(rest, vars)
  {
    var vars := Variables(extracted, hint);
    OtherNameNoKey(inner, vars);
    SubstituteAllOtherPlaceholder(a, inner, rest, vars);
  }

  /** A name outside the seven differs from each variable's plain key. */
  lemma OtherNameNoKey(inner: string, vars: seq<(string, string)>)
    requires |vars| == |VariableNames| && forall i :: 0 <= i < |vars| ==> vars[i].0 == VariableNames[i]
    requires Trim(inner) !in VariableNames
    ensures forall i :: 0 <= i < |vars| ==> PlainKey(vars[i].0) && Trim(inner) != vars[i].0
  {
    VariableNamesPlain();
  }

  /** The value of the first variable called `name`, if there is one. */
  function Lookup(vars: seq<(string, string)>, name: string): (r: Option<string>)
    ensures r.None? <==> forall j :: 0 <= j < |vars| ==> vars[j].0 != name
    ensures r.Some? ==> exists j :: 0 <= j < |vars| && vars[j].0 == name && vars[j].1 == r.value
    decreases |vars|
  {
    if vars == [] then None
    else if vars[0].0 == name then Some(vars[0].1)
    else
      var r := Lookup(vars[1..], name);
      assert r.Some? ==> exists j :: 0 <= j < |vars| && vars[j].0 == name && vars[j].1 == r.value by {
        if r.Some? {
          var j :| 0 <= j < |vars| - 1 && vars[1..][j].0 == name && vars[1..][j].1 == r.value;
          assert vars[j + 1] == vars[1..][j];
        }
      }
      assert r.None? ==> forall j :: 0 <= j < |vars| ==> vars[j].0 != name by {
        if r.None? {
          forall j | 0 <= j < |vars| ensures vars[j].0 != name {
            if 0 < j {
              assert vars[j] == vars[1..][j - 1];
            }
          }
        }
      }
      r
  }

  /** Text before the first '{' passes every pass unchanged. */
  lemma {:induction false} SubstituteAllKeepsPlainPrefix(a: string, b: string, vars: seq<(string, string)>)
    requires '{' !in a
    ensures SubstituteAll(a + b, vars) == a + SubstituteAll(b, vars)
    decreases |vars|
  {
    if vars != [] {
      ReplaceAllKeepsPlainPrefix(a, b, vars[0].0, vars[0].1);
      SubstituteAllKeepsPlainPrefix(a, ReplaceAll(b, vars[0].0, vars[0].1), vars[1..]);
    }
  }

  /** A text whose trim is `key` is `key` with white space around it. */
  lemma PaddedKey(inner: string, key: string) returns (sp1: string, sp2: string)
    requires Trim(inner) == key
    ensures AllSpace(sp1) && AllSpace(sp2) && inner == sp1 + key + sp2
  {
    TrimDropsSpace(inner);
    var a := |inner| - |TrimStart(inner)|;
    var b := a + |key|;
    sp1, sp2 := inner[..a], inner[b..];
    SplitPadded(inner, 0, a, b, |inner|);
    assert inner[0..|inner|] == inner && inner[0..a] == sp1 && inner[b..|inner|] == sp2;
    assert forall m :: 0 <= m < |sp1| ==> sp1[m] == inner[m];
    assert forall m :: 0 <= m < |sp2| ==> sp2[m] == inner[b + m];
  }

  /** One pass turns a placeholder at the front whose trimmed inner text is
      the key into the value, and the scan goes on after it. */
  lemma ReplaceAllKnownAtFront(inner: string, rest: string, key: string, value: string)
    requires PlainKey(key) && Trim(inner) == key
    ensures ReplaceAll(Braced(inner) + rest, key, value) == value + ReplaceAll(rest, key, value)
  {
    var sp1, sp2 := PaddedKey(inner, key);
    BracedPadded(sp1, key, sp2, rest);
    ReplaceAllPlaceholder(sp1, key, sp2, rest, value);
  }

  lemma BracedPadded(sp1: string, key: string, sp2: string, rest: string)
    ensures Braced(sp1 + key + sp2) + rest == "{{" + sp1 + key + sp2 + "}}" + rest
  {
  }

  /** The same behind brace-free text, which is kept. */
  lemma ReplaceAllKnownPlaceholder(a: string, inner: string, rest: string, key: string, value: string)
    requires '{' !in a && PlainKey(key) && Trim(inner) == key
    ensures ReplaceAll(a + Braced(inner) + rest, key, value) == a + value + ReplaceAll(rest, key, value)
  {
    ReplaceAllKnownAtFront(inner, rest, key, value);
    Regroup(a, Braced(inner), rest);
    ReplaceAllKeepsPlainPrefix(a, Braced(inner) + rest, key, value);
    Regroup(a, value, ReplaceAll(rest, key, value));
  }

  /** A placeholder naming a variable becomes the value of the first
      variable of that name: the passes before it leave it alone, its own
      pass replaces it, and a brace-free value is not touched afterwards. */
  lemma {:induction false} SubstituteAllKnownPlaceholder(a: string, inner: string, rest: string, vars: seq<(string, string)>)
    requires '{' !in a && '{' !in inner && '}' !in inner
    requires forall j :: 0 <= j < |vars| ==> PlainKey(vars[j].0)
    requires Lookup(vars, Trim(inner)).Some? && '{' !in Lookup(vars, Trim(inner)).value
    ensures SubstituteAll(a + Braced(inner) + rest, vars) == a + Lookup(vars, Trim(inner)).value + SubstituteAll(rest, vars)
    decreases |vars|
  {
    var key, value := vars[0].0, vars[0].1;
    var r := ReplaceAll(rest, key, value);
    if key == Trim(inner) {
      ReplaceAllKnownPlaceholder(a, inner, rest, key, value);
      SubstituteAllKeepsPlainPrefix(a + value, r, vars[1..]);
    } else {
      ReplaceAllKeepsOtherPlaceholder(a, inner, key, rest, value);
      SubstituteAllKnownPlaceholder(a, inner, r, vars[1..]);
    }
  }

  /** A user template cut into literal text and `{{ ... }}` placeholders. */
  datatype Segment = Text(text: string) | Hole(inner: string)

  /** Neither the text nor a placeholder's inner part holds a brace. */
  predicate PlainSegment(g: Segment) {
    match g
    case Text(t) => '{' !in t
    case Hole(inner) => '{' !in inner && '}' !in inner
  }

  /** The text of one segment in the template. */
  function SegText(g: Segment): string {
    match g
    case Text(t) => t
    case Hole(inner) => Braced(inner)
  }

  /** What one segment should become: a placeholder naming a variable is
      that variable's value, any other placeholder stays. */
  function SegFilled(g: Segment, vars: seq<(string, string)>): string {
    match g
    case Text(t) => t
    case Hole(inner) => match Lookup(vars, Trim(inner)) case Some(v) => v case None => Braced(inner)
  }

  /** The template the segments spell. */
  function Render(segs: seq<Segment>): string {
    if segs == [] then [] else SegText(segs[0]) + Render(segs[1..])
  }

  /** What the whole template should become. */
  function Filled(segs: seq<Segment>, vars: seq<(string, string)>): string {
    if segs == [] then [] else SegFilled(segs[0], vars) + Filled(segs[1..], vars)
  }

  /** The passes turn one brace-free segment into what it should become,
      and go on with the text after it. */
  lemma SegmentStep(g: Segment, r: string, vars: seq<(string, string)>)
    requires PlainSegment(g)
    requires forall j :: 0 <= j < |vars| ==> PlainKey(vars[j].0) && '{' !in vars[j].1
    ensures SubstituteAll(SegText(g) + r, vars) == SegFilled(g, vars) + SubstituteAll(r, vars)
  {
    match g
    case Text(t) =>
      SubstituteAllKeepsPlainPrefix(t, r, vars);
    case Hole(inner) =>
      assert SegText(g) + r == [] + Braced(inner) + r;
      var found := Lookup(vars, Trim(inner));
      if found.Some? {
        var j :| 0 <= j < |vars| && vars[j].0 == Trim(inner) && vars[j].1 == found.value;
        SubstituteAllKnownPlaceholder([], inner, r, vars);
        assert [] + found.value == found.value;
      } else {
        SubstituteAllOtherPlaceholder([], inner, r, vars);
        assert [] + Braced(inner) == Braced(inner);
      }
  }

  /** The passes fill every placeholder in a brace-free template with its
      variable's value and leave the rest, when no value holds a '{'. */
  lemma {:induction false} SubstituteSegments(segs: seq<Segment>, vars: seq<(string, string)>)
    requires forall k :: 0 <= k < |segs| ==> PlainSegment(segs[k])
    requires forall j :: 0 <= j < |vars| ==> PlainKey(vars[j].0) && '{' !in vars[j].1
    ensures SubstituteAll(Render(segs), vars) == Filled(segs, vars)
    decreases |segs|
  {
    if segs == [] {
      SubstituteAllPlain([], vars);
    } else {
      SegmentStep(segs[0], Render(segs[1..]), vars);
      SubstituteSegments(segs[1..], vars);
    }
  }

  /** Each of the seven names finds its own variable. */
  lemma LookupVariables(vars: seq<(string, string)>)
    requires |vars| == 7 && forall i :: 0 <= i < 7 ==> vars[i].0 == VariableNames[i]
    ensures forall i :: 0 <= i < 7 ==> Lookup(vars, VariableNames[i]) == Some(vars[i].1)
  {
    VariableNamesDistinct();
    forall i | 0 <= i < 7 ensures Lookup(vars, VariableNames[i]) == Some(vars[i].1) {
      LookupFirst(vars, i);
    }
  }

  /** No two of the seven names are equal. */
  lemma VariableNamesDistinct()
    ensures forall i, j :: 0 <= j < i < |VariableNames| ==> VariableNames[j] != VariableNames[i]
  {
  }

  /** A name that occurs first at `i` looks up the value at `i`. */
  lemma {:induction false} LookupFirst(vars: seq<(string, string)>, i: nat)
    requires i < |vars| && forall j :: 0 <= j < i ==> vars[j].0 != vars[i].0
    ensures Lookup(vars, vars[i].0) == Some(vars[i].1)
    decreases i
  {
    if 0 < i {
      assert vars[1..][i - 1] == vars[i];
      forall j | 0 <= j < i - 1 ensures vars[1..][j].0 != vars[i].0 {
        assert vars[1..][j] == vars[j + 1];
      }
      LookupFirst(vars[1..], i - 1);
    }
  }

  /** In the user template, with no '{' in any value, `{{ name }}` for each
      of the seven variables becomes that variable's value and any other
      placeholder stays; generateUserPrompt then trims the result. */
  lemma UserPromptFilled(segs: seq<Segment>, extracted: ExtractedData, hint: InfoHint)
    requires forall k :: 0 <= k < |segs| ==> PlainSegment(segs[k])
    requires forall j :: 0 <= j < 7 ==> '{' !in Variables(extracted, hint)[j].1
    ensures var vars := Variables(extracted, hint);
      && SubstituteAll(Render(segs), vars) == Filled(segs, vars)
      && forall i :: 0 <= i < 7 ==> Lookup(vars, VariableNames[i]) == Some(vars[i].1)
  {
    var vars := Variables(extracted, hint);
    VariableKeysPlain(vars);
    SubstituteSegments(segs, vars);
    LookupVariables(vars);
  }

  /** The seven keys are plain and, here, so are the values. */
  lemma VariableKeysPlain(vars: seq<(string, string)>)
    requires |vars| == 7 && forall i :: 0 <= i < 7 ==> vars[i].0 == VariableNames[i]
    requires forall j :: 0 <= j < 7 ==> '{' !in vars[j].1
    ensures forall j :: 0 <= j < |vars| ==> PlainKey(vars[j].0) && '{' !in vars[j].1
  {
    VariableNamesPlain();
  }

  /** The substitution loop of generateUserPrompt, then the trim. */
  method GenerateUserPrompt(template: string, extracted: ExtractedData, hint: InfoHint) returns (prompt: string)
    ensures prompt == Trim(SubstituteAll(template, Variables(extracted, hint)))
    ensures '{' !in template ==> prompt == Trim(template)
  {
    var vars := Variables(extracted, hint);
    prompt := template;
    var i := 0;
    while i < |vars|
      invariant i <= |vars|
      invariant SubstituteAll(prompt, vars[i..]) == SubstituteAll(template, vars)
    {
      assert vars[i..][1..] == vars[i + 1..];
      prompt := ReplaceAll(prompt, vars[i].0, vars[i].1);
      i := i + 1;
    }
    assert vars[i..] == [];
    prompt := Trim(prompt);
    if '{' !in template {
      SubstituteAllPlain(template, vars);
    }
  }

  // ---------------------------------------------------------------------
  // generateSchemaExample
  // ---------------------------------------------------------------------

  function NameKey(name: string): Option<string> {
    Some(name)
  }

  /** The loop that fills the example object: every field name maps to the
      empty string, and `keys` lists the names in the order they were first
      set. A JavaScript object lists integer-like keys first and ignores an
      assignment to `__proto__`; neither is modelled. The JSON rendering is
      not modelled. */
  method GenerateSchemaExample(names: seq<string>) returns (keys: seq<string>, example: map<string, string>)
    ensures example.Keys == set n | n in names
    ensures forall n :: n in example ==> example[n] == []
    ensures keys == KeepFirst(names, NameKey, {})
    ensures forall i, j :: 0 <= i < j < |keys| ==> keys[i] != keys[j]
  {
    keys, example := [], map[];
    var i := 0;
    assert example.Keys == {} && names[..0] == [] && names[0..] == names;
    while i < |names|
      invariant i <= |names|
      invariant forall n :: n in example <==> n in names[..i]
      invariant forall n :: n in example ==> example[n] == []
      invariant keys + KeepFirst(names[i..], NameKey, example.Keys) == KeepFirst(names, NameKey, {})
    {
      var name := names[i];
      SchemaStep(names, i, example, example[name := []], i + 1);
      SchemaOrderStep(names, i, keys, example.Keys, example[name := []].Keys, i + 1);
      if name !in example {
        keys := keys + [name];
      }
      example := example[name := []];
      i := i + 1;
    }
    SchemaDone(names, keys, example);
  }

  /** One pass of the schema loop sets one more name: the object's keys are
      then exactly the names seen so far. */
  lemma SchemaStep(names: seq<string>, i: nat, example: map<string, string>, next: map<string, string>, j: nat)
    requires i < |names| && j == i + 1 && next == example[names[i] := []]
    requires forall n :: n in example <==> n in names[..i]
    requires forall n :: n in example ==> example[n] == []
    ensures forall n :: n in next <==> n in names[..j]
    ensures forall n :: n in next ==> next[n] == []
    ensures next.Keys == example.Keys + {names[i]}
  {
    assert names[..j] == names[..i] + [names[i]];
  }

  /** One pass of the schema loop keeps the key order: the name is appended
      exactly when it was not set before. */
  lemma SchemaOrderStep(names: seq<string>, i: nat, keys: seq<string>, seen: set<string>, next: set<string>, j: nat)
    requires i < |names| && j == i + 1 && next == seen + {names[i]}
    requires keys + KeepFirst(names[i..], NameKey, seen) == KeepFirst(names, NameKey, {})
    ensures (if names[i] !in seen then keys + [names[i]] else keys) + KeepFirst(names[j..], NameKey, next)
      == KeepFirst(names, NameKey, {})
  {
    var name := names[i];
    assert names[i..] == [name] + names[i + 1..];
    assert NameKey(name) == Some(name);
    KeepFirstAppendStep(keys, name, names[i + 1..], NameKey, seen);
    if name in seen {
      assert next == seen;
    }
  }

  /** When the schema loop has seen every name, the object holds exactly the
      names and the key order is the first-seen order, without repeats. */
  lemma SchemaDone(names: seq<string>, keys: seq<string>, example: map<string, string>)
    requires forall n :: n in example <==> n in names[..|names|]
    requires keys + KeepFirst(names[|names|..], NameKey, example.Keys) == KeepFirst(names, NameKey, {})
    ensures example.Keys == set n | n in names
    ensures keys == KeepFirst(names, NameKey, {})
    ensures forall i, j :: 0 <= i < j < |keys| ==> keys[i] != keys[j]
  {
    assert names[|names|..] == [];
    assert KeepFirst(names[|names|..], NameKey, example.Keys) == [];
    assert names[..|names|] == names;
    assert keys + [] == keys;
    KeepFirstKeys(names, NameKey, {});
    forall i, j | 0 <= i < j < |keys| ensures keys[i] != keys[j] {
      assert NameKey(keys[i]) != NameKey(keys[j]);
    }
  }
}
