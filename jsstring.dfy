/** The JavaScript string operations the pipeline relies on (`trim`,
    `toLowerCase`, `includes`, `startsWith`, `split`, `join`, `padStart`,
    `parseInt`, `String(n)` and run-collapsing `replace`), each stated on
    `seq<char>`. A character stands for one UTF-16 code unit. */
module JsString {
  import opened Wrappers

  // ---------------------------------------------------------------------
  // Character classes
  // ---------------------------------------------------------------------

  /** ECMAScript WhiteSpace and LineTerminator code points: the set that the
      regular-expression class `\s` matches, that `trim` removes and that
      `parseInt` skips. */
  predicate IsSpace(c: char) {
    ('\t' <= c <= '\r') || c == ' ' || ('\U{00A0}' <= c && IsWideSpace(c))
  }

  /** The white space from U+00A0 on: no-break space, Ogham space mark, the
      typographic spaces U+2000 to U+200A, line and paragraph separators,
      narrow no-break space, medium mathematical space, ideographic space
      and the byte order mark. */
  predicate IsWideSpace(c: char) {
    c == '\U{00A0}' || c == '\U{1680}' || ('\U{2000}' <= c <= '\U{200A}')
    || c == '\U{2028}' || c == '\U{2029}' || c == '\U{202F}' || c == '\U{205F}'
    || c == '\U{3000}' || c == '\U{FEFF}'
  }

  predicate IsDigit(c: char) { '0' <= c <= '9' }

  predicate IsAsciiAlnum(c: char) {
    ('a' <= c <= 'z') || ('A' <= c <= 'Z') || IsDigit(c)
  }

  predicate AllDigits(s: string) {
    forall i :: 0 <= i < |s| ==> IsDigit(s[i])
  }

  /** Lower-casing of the ASCII letters; every other character is kept. */
  function AsciiLower(c: char): (r: char)
    ensures 'A' <= c <= 'Z' ==> 'a' <= r <= 'z'
    ensures !('A' <= c <= 'Z') ==> r == c
  {
    if 'A' <= c <= 'Z' then (c as int - 'A' as int + 'a' as int) as char else c
  }

  /** `s.toLowerCase()`, restricted to ASCII letters. */
  function Lower(s: string): (r: string)
    ensures |r| == |s|
    ensures forall i :: 0 <= i < |s| ==> r[i] == AsciiLower(s[i])
  {
    seq(|s|, i requires 0 <= i < |s| => AsciiLower(s[i]))
  }

  /** Equality of two strings after ASCII lower-casing: how a regular
      expression with the `i` flag compares ASCII text. */
  predicate EqualsIgnoreCase(a: string, b: string) {
    Lower(a) == Lower(b)
  }

  // ---------------------------------------------------------------------
  // trim
  // ---------------------------------------------------------------------

  /** The first index at or after `i` that is not white space. */
  function SkipSpaces(s: string, i: nat): (j: nat)
    ensures i <= j
    ensures forall k :: i <= k < j && k < |s| ==> IsSpace(s[k])
    ensures j < |s| ==> !IsSpace(s[j])
    ensures i <= |s| ==> j <= |s|
    decreases |s| - i
  {
    if i < |s| && IsSpace(s[i]) then SkipSpaces(s, i + 1) else i
  }

  /** The last index at or before `j` that white space does not precede. */
  function SkipSpacesBack(s: string, j: nat): (i: nat)
    requires j <= |s|
    ensures i <= j
    ensures forall k :: i <= k < j ==> IsSpace(s[k])
    ensures 0 < i ==> !IsSpace(s[i - 1])
  {
    if 0 < j && IsSpace(s[j - 1]) then SkipSpacesBack(s, j - 1) else j
  }

  function TrimStart(s: string): (r: string)
    ensures |r| <= |s| && r == s[|s| - |r|..]
    ensures r == [] || !IsSpace(r[0])
  {
    s[SkipSpaces(s, 0)..]
  }

  /** Only white space is dropped from the front. */
  lemma TrimStartDropsSpace(s: string)
    ensures forall i :: 0 <= i < |s| - |TrimStart(s)| ==> IsSpace(s[i])
  {
    assert |s| - |TrimStart(s)| == SkipSpaces(s, 0);
  }

  function TrimEnd(s: string): (r: string)
    ensures |r| <= |s| && r == s[..|r|]
    ensures r == [] || !IsSpace(r[|r| - 1])
  {
    s[..SkipSpacesBack(s, |s|)]
  }

  /** Only white space is dropped from the back. */
  lemma TrimEndDropsSpace(s: string)
    ensures forall i :: |TrimEnd(s)| <= i < |s| ==> IsSpace(s[i])
  {
    assert |TrimEnd(s)| == SkipSpacesBack(s, |s|);
  }

  /** `s.trim()`: the longest slice of `s` that neither starts nor ends with
      white space, obtained by dropping only white space (`TrimDropsSpace`). */
  function Trim(s: string): (r: string)
    ensures r == [] || (!IsSpace(r[0]) && !IsSpace(r[|r| - 1]))
    ensures |r| <= |s|
  {
    TrimEnd(TrimStart(s))
  }

  /** The trim is a slice of `s` with only white space around it. */
  lemma TrimDropsSpace(s: string)
    ensures var a := |s| - |TrimStart(s)|;
      && a + |Trim(s)| <= |s| && Trim(s) == s[a..a + |Trim(s)|]
      && (forall i :: 0 <= i < a ==> IsSpace(s[i]))
      && (forall i :: a + |Trim(s)| <= i < |s| ==> IsSpace(s[i]))
  {
    TrimSlice(s);
    TrimStartDropsSpace(s);
    TrimBackIsSpace(s);
  }

  lemma TrimSlice(s: string)
    ensures var a := |s| - |TrimStart(s)|;
      a + |Trim(s)| <= |s| && Trim(s) == s[a..a + |Trim(s)|]
  {
    var t := TrimStart(s);
    var r := TrimEnd(t);
    assert Trim(s) == r;
    PrefixOfSuffix(s, t, r);
  }

  /** A prefix of a suffix is a slice. */
  lemma PrefixOfSuffix(s: string, t: string, r: string)
    requires |t| <= |s| && t == s[|s| - |t|..]
    requires |r| <= |t| && r == t[..|r|]
    ensures |s| - |t| + |r| <= |s| && r == s[|s| - |t|..|s| - |t| + |r|]
  {
  }

  lemma TrimBackIsSpace(s: string)
    ensures forall i :: |s| - |TrimStart(s)| + |Trim(s)| <= i < |s| ==> IsSpace(s[i])
  {
    var t := TrimStart(s);
    var a := |s| - |t|;
    assert t == s[a..];
    var r := TrimEnd(t);
    assert Trim(s) == r;
    TrimEndDropsSpace(t);
    forall i | a + |r| <= i < |s| ensures IsSpace(s[i]) {
      assert s[i] == t[i - a];
    }
  }

  /** A string that neither starts nor ends with white space is its own trim. */
  lemma TrimOfTrimmed(s: string)
    requires s == [] || (!IsSpace(s[0]) && !IsSpace(s[|s| - 1]))
    ensures Trim(s) == s
  {
  }

  /** Trimming keeps exactly the strings that are already trimmed. */
  lemma TrimKeepsTrimmed(s: string)
    ensures (s == [] || (!IsSpace(s[0]) && !IsSpace(s[|s| - 1]))) ==> Trim(s) == s
  {
    if s == [] || (!IsSpace(s[0]) && !IsSpace(s[|s| - 1])) {
      TrimOfTrimmed(s);
    }
  }

  lemma TrimIdempotent(s: string)
    ensures Trim(Trim(s)) == Trim(s)
  {
    TrimOfTrimmed(Trim(s));
  }

  /** Every character is white space. */
  predicate AllSpace(s: string) {
    forall i :: 0 <= i < |s| ==> IsSpace(s[i])
  }

  lemma TrimStartPadded(ws: string, body: string)
    requires AllSpace(ws) && body != [] && !IsSpace(body[0])
    ensures TrimStart(ws + body) == body
  {
    var s := ws + body;
    assert s[|ws|] == body[0];
    assert forall k :: 0 <= k < |ws| ==> s[k] == ws[k];
    assert SkipSpaces(s, 0) == |ws|;
    assert s[|ws|..] == body;
  }

  lemma TrimEndPadded(body: string, ws: string)
    requires AllSpace(ws) && body != [] && !IsSpace(body[|body| - 1])
    ensures TrimEnd(body + ws) == body
  {
    var s := body + ws;
    assert s[|body| - 1] == body[|body| - 1];
    assert forall k :: |body| <= k < |s| ==> s[k] == ws[k - |body|];
    assert SkipSpacesBack(s, |s|) == |body|;
    assert s[..|body|] == body;
  }

  lemma TrimStartAllSpace(ws: string)
    requires AllSpace(ws)
    ensures TrimStart(ws) == [] && Trim(ws) == []
  {
    assert SkipSpaces(ws, 0) == |ws|;
  }

  /** A body with white space around it trims to the body. */
  lemma TrimPadded(ws1: string, body: string, ws2: string)
    requires AllSpace(ws1) && AllSpace(ws2)
    requires body != [] && !IsSpace(body[0]) && !IsSpace(body[|body| - 1])
    ensures Trim(ws1 + body + ws2) == body
  {
    assert ws1 + body + ws2 == ws1 + (body + ws2);
    TrimStartPadded(ws1, body + ws2);
    TrimEndPadded(body, ws2);
  }

  // ---------------------------------------------------------------------
  // includes, startsWith, split, join
  // ---------------------------------------------------------------------

  predicate OccursAt(s: string, sub: string, i: nat) {
    i + |sub| <= |s| && s[i..i + |sub|] == sub
  }

  /** `s.indexOf(sub, from)`: the first occurrence at or after `from`. */
  function IndexOfFrom(s: string, sub: string, from: nat): (r: Option<nat>)
    ensures r.Some? ==> from <= r.value && OccursAt(s, sub, r.value)
    ensures r.Some? ==> forall j :: from <= j < r.value ==> !OccursAt(s, sub, j)
    ensures r.None? ==> forall j :: from <= j ==> !OccursAt(s, sub, j)
    decreases |s| - from
  {
    if from + |sub| > |s| then None
    else if OccursAt(s, sub, from) then Some(from)
    else IndexOfFrom(s, sub, from + 1)
  }

  /** `s.includes(sub)`. */
  predicate Includes(s: string, sub: string) {
    IndexOfFrom(s, sub, 0).Some?
  }

  /** `s` cannot include a text whose first character it lacks. */
  lemma NotIncludesHead(s: string, sub: string)
    requires sub != [] && forall i :: 0 <= i < |s| ==> s[i] != sub[0]
    ensures !Includes(s, sub)
  {
    forall j: nat ensures !OccursAt(s, sub, j) {
      if j + |sub| <= |s| {
        assert s[j..j + |sub|][0] == s[j];
      }
    }
    IncludesIff(s, sub);
  }

  lemma IncludesIff(s: string, sub: string)
    ensures Includes(s, sub) <==> exists j: nat :: OccursAt(s, sub, j)
  {
  }

  /** `s.startsWith(prefix)`. */
  predicate StartsWith(s: string, prefix: string) {
    prefix <= s
  }

  /** `s.split(sep)[0]` for a one-character separator: the text before the
      first `sep`, or all of `s`. */
  function BeforeFirst(s: string, sep: char): (r: string)
    ensures r <= s && sep !in r
    ensures |r| < |s| ==> s[|r|] == sep
  {
    if s == [] || s[0] == sep then [] else [s[0]] + BeforeFirst(s[1..], sep)
  }

  /** `s.split(sep).pop()` for a one-character separator: the text after the
      last `sep`, or all of `s`. */
  function AfterLast(s: string, sep: char): (r: string)
    ensures |r| <= |s| && r == s[|s| - |r|..] && sep !in r
    ensures |r| < |s| ==> s[|s| - |r| - 1] == sep
  {
    if s == [] || s[|s| - 1] == sep then [] else AfterLast(s[..|s| - 1], sep) + [s[|s| - 1]]
  }

  /** `parts.join(sep)`. */
  function Join(parts: seq<string>, sep: string): string {
    if |parts| == 0 then []
    else if |parts| == 1 then parts[0]
    else parts[0] + sep + Join(parts[1..], sep)
  }

  /** `s.substring(0, n)`. */
  function Take(s: string, n: nat): (r: string)
    ensures r <= s && |r| == if |s| <= n then |s| else n
  {
    if |s| <= n then s else s[..n]
  }

  // ---------------------------------------------------------------------
  // Run collapsing: s.replace(/<class>+/g, rep)
  // ---------------------------------------------------------------------

  function SkipWhile(s: string, p: char -> bool): (r: string)
    ensures |r| <= |s| && r == s[|s| - |r|..]
    ensures r == [] || !p(r[0])
    ensures forall i :: 0 <= i < |s| - |r| ==> p(s[i])
  {
    if s != [] && p(s[0]) then
      var r := SkipWhile(s[1..], p);
      SkipWhileStep(s, p, r);
      r
    else s
  }

  /** What skipping from `s[1..]` leaves, skipping from `s` leaves too. */
  lemma SkipWhileStep(s: string, p: char -> bool, r: string)
    requires s != [] && p(s[0])
    requires |r| <= |s| - 1 && r == s[1..][|s| - 1 - |r|..]
    requires forall i :: 0 <= i < |s| - 1 - |r| ==> p(s[1..][i])
    ensures |r| <= |s| && r == s[|s| - |r|..]
    ensures forall i :: 0 <= i < |s| - |r| ==> p(s[i])
  {
    forall i | 0 <= i < |s| - |r| ensures p(s[i]) {
      if 0 < i {
        assert s[i] == s[1..][i - 1];
      }
    }
  }

  /** Every maximal run of characters satisfying `p` becomes the single
      character `rep`; all other characters are kept in order. */
  function CollapseRuns(s: string, p: char -> bool, rep: char): (r: string)
    ensures |r| <= |s|
    ensures s != [] ==> r != [] && r[0] == (if p(s[0]) then rep else s[0])
    decreases |s|
  {
    if s == [] then []
    else if p(s[0]) then [rep] + CollapseRuns(SkipWhile(s[1..], p), p, rep)
    else [s[0]] + CollapseRuns(s[1..], p, rep)
  }

  /** Every character satisfying `p` in the result is `rep`, and no two
      adjacent characters both satisfy `p`. */
  lemma {:induction false} CollapseRunsShape(s: string, p: char -> bool, rep: char)
    ensures forall i :: 0 <= i < |CollapseRuns(s, p, rep)| && p(CollapseRuns(s, p, rep)[i]) ==> CollapseRuns(s, p, rep)[i] == rep
    ensures forall i :: 0 <= i < |CollapseRuns(s, p, rep)| - 1 ==>
      !(p(CollapseRuns(s, p, rep)[i]) && p(CollapseRuns(s, p, rep)[i + 1]))
    decreases |s|
  {
    if s != [] {
      var t := if p(s[0]) then SkipWhile(s[1..], p) else s[1..];
      var c := if p(s[0]) then rep else s[0];
      CollapseRunsShape(t, p, rep);
      var rest := CollapseRuns(t, p, rep);
      var r := CollapseRuns(s, p, rep);
      assert r == [c] + rest;
      assert p(s[0]) && rest != [] ==> !p(rest[0]);
      forall i | 0 <= i < |r| && p(r[i]) ensures r[i] == rep {
        if i > 0 {
          assert r[i] == rest[i - 1];
        }
      }
      forall i | 0 <= i < |r| - 1 ensures !(p(r[i]) && p(r[i + 1])) {
        assert r[i + 1] == rest[i];
        if i > 0 {
          assert r[i] == rest[i - 1];
        }
      }
    }
  }

  /** A character of the collapsed string is `rep` or a character of `s`. */
  lemma {:induction false} CollapseRunsFrom(s: string, p: char -> bool, rep: char, ok: char -> bool)
    requires ok(rep) && forall i :: 0 <= i < |s| ==> ok(s[i])
    ensures forall i :: 0 <= i < |CollapseRuns(s, p, rep)| ==> ok(CollapseRuns(s, p, rep)[i])
    decreases |s|
  {
    if s == [] {
    } else if p(s[0]) {
      var t := SkipWhile(s[1..], p);
      assert forall i :: 0 <= i < |t| ==> t[i] == s[|s| - |t| + i];
      CollapseRunsFrom(t, p, rep, ok);
    } else {
      CollapseRunsFrom(s[1..], p, rep, ok);
    }
  }

  /** A string already in collapsed form is left unchanged. */
  lemma {:induction false} CollapseRunsFixpoint(s: string, p: char -> bool, rep: char)
    requires forall i :: 0 <= i < |s| && p(s[i]) ==> s[i] == rep
    requires forall i :: 0 <= i < |s| - 1 ==> !(p(s[i]) && p(s[i + 1]))
    ensures CollapseRuns(s, p, rep) == s
    decreases |s|
  {
    if s != [] {
      if p(s[0]) {
        assert |s| > 1 ==> !p(s[1]);
        assert SkipWhile(s[1..], p) == s[1..];
      }
      CollapseRunsFixpoint(s[1..], p, rep);
    }
  }

  lemma CollapseRunsIdempotent(s: string, p: char -> bool, rep: char)
    ensures CollapseRuns(CollapseRuns(s, p, rep), p, rep) == CollapseRuns(s, p, rep)
  {
    CollapseRunsShape(s, p, rep);
    CollapseRunsFixpoint(CollapseRuns(s, p, rep), p, rep);
  }

  // ---------------------------------------------------------------------
  // Decimal numbers: String(n), parseInt(s, 10), padStart
  // ---------------------------------------------------------------------

  function DigitValue(c: char): nat
    requires IsDigit(c)
  {
    c as int - '0' as int
  }

  function DigitChar(d: nat): (c: char)
    requires d < 10
    ensures IsDigit(c) && DigitValue(c) == d
  {
    (d + '0' as int) as char
  }

  /** The value of a string of decimal digits (leading zeros allowed). */
  function DecimalValue(s: string): nat
    requires AllDigits(s)
  {
    if s == [] then 0 else 10 * DecimalValue(s[..|s| - 1]) + DigitValue(s[|s| - 1])
  }

  /** `String(n)` for a non-negative integer: shortest decimal form. */
  function DecimalString(n: nat): (r: string)
    ensures |r| >= 1 && AllDigits(r)
    ensures (r[0] == '0') == (n == 0)
    ensures n < 10 <==> |r| == 1
  {
    if n < 10 then [DigitChar(n)] else DecimalString(n / 10) + [DigitChar(n % 10)]
  }

  lemma {:induction false} DecimalRoundTrip(n: nat)
    ensures DecimalValue(DecimalString(n)) == n
  {
    if n >= 10 {
      DecimalRoundTrip(n / 10);
      var d := DecimalString(n);
      assert d[..|d| - 1] == DecimalString(n / 10);
    }
  }

  function Repeat(c: char, k: nat): (r: string)
    ensures |r| == k && forall i :: 0 <= i < k ==> r[i] == c
  {
    if k == 0 then [] else [c] + Repeat(c, k - 1)
  }

  lemma {:induction false} LeadingZerosValue(k: nat, s: string)
    requires AllDigits(s)
    ensures AllDigits(Repeat('0', k) + s)
    ensures DecimalValue(Repeat('0', k) + s) == DecimalValue(s)
    decreases |s|, k
  {
    var z := Repeat('0', k);
    if s == [] {
      assert z + s == z;
      if k > 0 {
        assert z[..k - 1] == Repeat('0', k - 1) + [];
        LeadingZerosValue(k - 1, []);
      }
    } else {
      assert (z + s)[..|z + s| - 1] == z + s[..|s| - 1];
      LeadingZerosValue(k, s[..|s| - 1]);
    }
  }

  /** `s.padStart(width, c)` with a one-character filler. */
  function PadStart(s: string, width: nat, c: char): (r: string)
    ensures |r| == if |s| >= width then |s| else width
    ensures r == Repeat(c, |r| - |s|) + s
  {
    if |s| >= width then Repeat(c, 0) + s else Repeat(c, width - |s|) + s
  }

  /** The longest prefix made of decimal digits. */
  function DigitPrefix(s: string): (r: string)
    ensures r <= s && AllDigits(r)
    ensures |r| < |s| ==> !IsDigit(s[|r|])
  {
    if s != [] && IsDigit(s[0]) then [s[0]] + DigitPrefix(s[1..]) else []
  }

  /** `parseInt(s, 10)`: leading white space is skipped, one optional sign is
      read, then the longest run of decimal digits; no digits gives NaN
      (None). */
  function ParseInt(s: string): Option<int> {
    var t := TrimStart(s);
    var negative := t != [] && t[0] == '-';
    var u := if t != [] && (t[0] == '-' || t[0] == '+') then t[1..] else t;
    var d := DigitPrefix(u);
    if d == [] then None
    else if negative then Some(-(DecimalValue(d) as int))
    else Some(DecimalValue(d))
  }

  lemma ParseIntOfDigits(s: string)
    requires s != [] && AllDigits(s)
    ensures ParseInt(s) == Some(DecimalValue(s) as int)
  {
    assert IsDigit(s[0]) && !IsSpace(s[0]) && s[0] != '-' && s[0] != '+';
    assert TrimStart(s) == s;
    DigitPrefixOfDigits(s);
    assert DigitPrefix(s) == s != [];
  }

  lemma ParseIntOfDecimal(n: nat)
    ensures ParseInt(DecimalString(n)) == Some(n)
  {
    ParseIntOfDigits(DecimalString(n));
    DecimalRoundTrip(n);
  }

  lemma {:induction false} DigitPrefixOfDigits(s: string)
    requires AllDigits(s)
    ensures DigitPrefix(s) == s
  {
    if s != [] {
      DigitPrefixOfDigits(s[1..]);
    }
  }
}
