/** Record normalization: industry canonicalisation, difficulty clamping,
    the `[a-z0-9_]` de-duplication key, first-seen de-duplication and
    positional IDs. */
module Normalize {
  import opened Wrappers
  import opened JsString
  import opened Seqs
  import opened FirstSeen
  import opened Schema

  /** The industry configuration: the closed list of industry names and the
      synonym table in its enumeration order. */
  datatype IndustryConfig = IndustryConfig(industries: seq<string>, mappings: seq<(string, string)>)

  /** The configuration keeps the vocabulary closed: every synonym maps into
      the list, and the fallback is in the list. */
  predicate ClosedVocabulary(cfg: IndustryConfig) {
    && OtherIndustry in cfg.industries
    && forall i :: 0 <= i < |cfg.mappings| ==> cfg.mappings[i].1 in cfg.industries
  }

  // ---------------------------------------------------------------------
  // Industry
  // ---------------------------------------------------------------------

  /** Whether the synonym at index `i` applies to the normalized input. */
  predicate SynonymApplies(normalized: string, mappings: seq<(string, string)>, i: nat)
    requires i < |mappings|
  {
    Includes(normalized, Lower(mappings[i].0))
  }

  /** The index of the first synonym at or after `from` that applies. */
  function FirstSynonym(normalized: string, mappings: seq<(string, string)>, from: nat): (r: Option<nat>)
    requires from <= |mappings|
    ensures r.Some? ==> from <= r.value < |mappings| && SynonymApplies(normalized, mappings, r.value)
    ensures r.Some? ==> forall j :: from <= j < r.value ==> !SynonymApplies(normalized, mappings, j)
    ensures r.None? ==> forall j :: from <= j < |mappings| ==> !SynonymApplies(normalized, mappings, j)
    decreases |mappings| - from
  {
    if from == |mappings| then None
    else if SynonymApplies(normalized, mappings, from) then Some(from)
    else FirstSynonym(normalized, mappings, from + 1)
  }

  /** A listed industry is kept; otherwise the first synonym whose
      lower-cased key occurs in the lower-cased, trimmed input decides;
      otherwise the industry is "その他". */
  function NormalizeIndustry(industry: string, cfg: IndustryConfig): (r: string)
    ensures industry in cfg.industries ==> r == industry
    ensures industry !in cfg.industries ==>
      var n := Trim(Lower(industry));
      || (exists i :: 0 <= i < |cfg.mappings| && SynonymApplies(n, cfg.mappings, i)
            && (forall j :: 0 <= j < i ==> !SynonymApplies(n, cfg.mappings, j))
            && r == cfg.mappings[i].1)
      || ((forall i :: 0 <= i < |cfg.mappings| ==> !SynonymApplies(n, cfg.mappings, i))
            && r == OtherIndustry)
  {
    if industry in cfg.industries then industry
    else
      match FirstSynonym(Trim(Lower(industry)), cfg.mappings, 0)
      case Some(i) => cfg.mappings[i].1
      case None => OtherIndustry
  }

  lemma NormalizeIndustryInVocabulary(industry: string, cfg: IndustryConfig)
    requires ClosedVocabulary(cfg)
    ensures NormalizeIndustry(industry, cfg) in cfg.industries
  {
  }

  lemma NormalizeIndustryIdempotent(industry: string, cfg: IndustryConfig)
    requires ClosedVocabulary(cfg)
    ensures NormalizeIndustry(NormalizeIndustry(industry, cfg), cfg) == NormalizeIndustry(industry, cfg)
  {
    NormalizeIndustryInVocabulary(industry, cfg);
  }

  // ---------------------------------------------------------------------
  // Difficulty
  // ---------------------------------------------------------------------

  const DifficultyLevels: set<string> := {"1", "2", "3", "4", "5"}

  /** The difficulty as one of "1".."5": a leading integer is clamped into
      range; text without one is read for keywords, defaulting to "3". */
  function NormalizeDifficulty(difficulty: string): (r: string)
    ensures r in DifficultyLevels
    ensures ParseInt(difficulty).Some? && ParseInt(difficulty).value < 1 ==> r == "1"
    ensures ParseInt(difficulty).Some? && ParseInt(difficulty).value > 5 ==> r == "5"
    ensures ParseInt(difficulty).Some? && 1 <= ParseInt(difficulty).value <= 5 ==>
      r == DecimalString(ParseInt(difficulty).value as nat)
    ensures ParseInt(difficulty).None? ==>
      var easy := Includes(difficulty, "簡単") || Includes(difficulty, "単純");
      var medium := Includes(difficulty, "中程度") || Includes(difficulty, "普通");
      var hard := Includes(difficulty, "複雑") || Includes(difficulty, "高度");
      && (easy ==> r == "1")
      && (!easy && medium ==> r == "3")
      && (!easy && !medium && hard ==> r == "5")
      && (!easy && !medium && !hard ==> r == "3")
  {
    match ParseInt(difficulty)
    case None =>
      if Includes(difficulty, "簡単") || Includes(difficulty, "単純") then "1"
      else if Includes(difficulty, "中程度") || Includes(difficulty, "普通") then "3"
      else if Includes(difficulty, "複雑") || Includes(difficulty, "高度") then "5"
      else "3"
    case Some(n) =>
      if n < 1 then "1"
      else if n > 5 then "5"
      else
        assert DecimalString(n as nat) in DifficultyLevels by {
          assert n == 1 || n == 2 || n == 3 || n == 4 || n == 5;
        }
        DecimalString(n as nat)
  }

  /** A normalized difficulty normalizes to itself. */
  lemma NormalizeDifficultyIdempotent(difficulty: string)
    ensures NormalizeDifficulty(NormalizeDifficulty(difficulty)) == NormalizeDifficulty(difficulty)
  {
    LevelIsFixed(NormalizeDifficulty(difficulty));
  }

  /** Each of "1".."5" is read as its own integer and kept. */
  lemma LevelIsFixed(level: string)
    requires level in DifficultyLevels
    ensures NormalizeDifficulty(level) == level
  {
    assert level == "1" || level == "2" || level == "3" || level == "4" || level == "5";
    LevelIsFixedAt(level);
  }

  lemma LevelIsFixedAt(level: string)
    requires |level| == 1 && '1' <= level[0] <= '5'
    ensures NormalizeDifficulty(level) == level
  {
    var v := DigitValue(level[0]);
    assert AllDigits(level);
    ParseIntOfDigits(level);
    assert level[..0] == [] && DecimalValue(level) == v;
    assert DecimalString(v) == [DigitChar(v)] == level;
  }

  lemma NormalizeDifficultyClampExamples()
    ensures NormalizeDifficulty("0") == "1"
    ensures NormalizeDifficulty("7") == "5"
    ensures NormalizeDifficulty("9") == "5"
  {
    ParseIntOfDigits("0");
    ParseIntOfDigits("7");
    ParseIntOfDigits("9");
  }

  lemma NormalizeDifficultyPrefixExample()
    ensures NormalizeDifficulty("4 (やや複雑)") == "4"
  {
    var s := "4 (やや複雑)";
    assert TrimStart(s) == s;
    assert DigitPrefix(s) == "4";
    assert DecimalValue("4") == 4;
    assert ParseInt(s) == Some(4);
    assert DecimalString(4) == "4";
  }

  lemma NormalizeDifficultyKeywordExample()
    ensures NormalizeDifficulty("高度") == "5"
  {
    var s := "高度";
    assert TrimStart(s) == s;
    assert DigitPrefix(s) == [];
    NotIncludesHead(s, "簡単");
    NotIncludesHead(s, "単純");
    NotIncludesHead(s, "中程度");
    NotIncludesHead(s, "普通");
    assert OccursAt(s, "高度", 0);
    KeywordHard(s);
  }

  /** Text without a leading integer, naming only a hard keyword, reads as
      "5". */
  lemma KeywordHard(s: string)
    requires ParseInt(s).None?
    requires !Includes(s, "簡単") && !Includes(s, "単純")
    requires !Includes(s, "中程度") && !Includes(s, "普通")
    requires Includes(s, "高度")
    ensures NormalizeDifficulty(s) == "5"
  {
  }

  // ---------------------------------------------------------------------
  // Key tokens
  // ---------------------------------------------------------------------

  /** The company-suffix alternatives, in the order the pattern lists them. */
  const OrgSuffixes: seq<string> := ["社", "株式会社", "Corp", "Inc", "Ltd", "Corporation"]

  /** The length of the run of ASCII letters and digits starting at `p`. */
  function AlnumRun(s: string, p: nat): (k: nat)
    requires p <= |s|
    ensures p + k <= |s|
    ensures forall i :: p <= i < p + k ==> IsAsciiAlnum(s[i])
    ensures p + k < |s| ==> !IsAsciiAlnum(s[p + k])
    decreases |s| - p
  {
    if p < |s| && IsAsciiAlnum(s[p]) then 1 + AlnumRun(s, p + 1) else 0
  }

  /** `t` occurs at `i`, ASCII letters compared case-insensitively, checked
      one character at a time. */
  predicate MatchesIgnoreCaseAt(s: string, i: nat, t: string)
    ensures MatchesIgnoreCaseAt(s, i, t) ==> i + |t| <= |s|
    decreases |t|
  {
    if t == [] then i <= |s|
    else i < |s| && AsciiLower(s[i]) == AsciiLower(t[0]) && MatchesIgnoreCaseAt(s, i + 1, t[1..])
  }

  /** The character-wise check is the `i`-flag comparison of the slice. */
  lemma {:induction false} MatchesIgnoreCaseAtIff(s: string, i: nat, t: string)
    ensures MatchesIgnoreCaseAt(s, i, t) <==> i + |t| <= |s| && EqualsIgnoreCase(s[i..i + |t|], t)
    decreases |t|
  {
    if t != [] && i < |s| {
      MatchesIgnoreCaseAtIff(s, i + 1, t[1..]);
      if i + |t| <= |s| {
        var a, b := s[i..i + |t|], s[i + 1..i + |t|];
        assert a == [s[i]] + b;
        assert Lower(a) == [AsciiLower(s[i])] + Lower(b);
        assert Lower(t) == [AsciiLower(t[0])] + Lower(t[1..]);
      }
    }
  }

  /** Suffix `j` occurs at `i`, ASCII letters compared case-insensitively. */
  predicate SuffixAt(s: string, alts: seq<string>, i: nat, j: nat)
    requires j < |alts|
  {
    MatchesIgnoreCaseAt(s, i, alts[j])
  }

  /** The company pattern matches at `p` with an alphanumeric part of
      length `k` followed by alternative `j`. */
  predicate OrgMatchesAt(s: string, alts: seq<string>, p: nat, k: nat, j: nat) {
    && 1 <= k && p + k <= |s|
    && (forall i :: p <= i < p + k ==> IsAsciiAlnum(s[i]))
    && j < |alts| && SuffixAt(s, alts, p + k, j)
  }

  /** The first alternative at or after `from` that occurs at `i`. */
  function FirstSuffix(s: string, alts: seq<string>, i: nat, from: nat): (r: Option<nat>)
    requires from <= |alts|
    ensures r.Some? ==> from <= r.value < |alts|
    decreases |alts| - from
  {
    if from == |alts| then None
    else if SuffixAt(s, alts, i, from) then Some(from)
    else FirstSuffix(s, alts, i, from + 1)
  }

  /** The alternatives are tried in order and the first that occurs wins. */
  lemma {:induction false} FirstSuffixFinds(s: string, alts: seq<string>, i: nat, from: nat)
    requires from <= |alts|
    ensures var r := FirstSuffix(s, alts, i, from);
      && (r.Some? ==> SuffixAt(s, alts, i, r.value))
      && (r.Some? ==> forall j :: from <= j < r.value ==> !SuffixAt(s, alts, i, j))
      && (r.None? ==> forall j :: from <= j < |alts| ==> !SuffixAt(s, alts, i, j))
    decreases |alts| - from
  {
    if from < |alts| {
      if SuffixAt(s, alts, i, from) {
        assert FirstSuffix(s, alts, i, from) == Some(from);
      } else {
        FirstSuffixFinds(s, alts, i, from + 1);
        var r := FirstSuffix(s, alts, i, from + 1);
        assert FirstSuffix(s, alts, i, from) == r;
        if r.Some? {
          forall j | from <= j < r.value ensures !SuffixAt(s, alts, i, j) {
            if j > from {
              assert from + 1 <= j < r.value;
            }
          }
        } else {
          forall j | from <= j < |alts| ensures !SuffixAt(s, alts, i, j) {
            if j > from {
              assert from + 1 <= j < |alts|;
            }
          }
        }
      }
    }
  }

  /** Backtracking over the greedy alphanumeric part: lengths `k`, `k-1`,
      ..., 1 are tried, each with the alternatives in order. */
  function Backtrack(s: string, alts: seq<string>, p: nat, k: nat): (r: Option<(nat, nat)>)
    requires p + k <= |s|
    ensures r.Some? ==> 1 <= r.value.0 <= k && r.value.1 < |alts|
    decreases k
  {
    if k == 0 then None
    else
      match FirstSuffix(s, alts, p + k, 0)
      case Some(j) => Some((k, j))
      case None => Backtrack(s, alts, p, k - 1)
  }

  /** What the backtracking returns pairs a length with the first
      alternative that follows a run of that length. */
  lemma {:induction false} BacktrackFirst(s: string, alts: seq<string>, p: nat, k: nat)
    requires p + k <= |s|
    ensures var r := Backtrack(s, alts, p, k);
      r.Some? ==> FirstSuffix(s, alts, p + r.value.0, 0) == Some(r.value.1)
    decreases k
  {
    if k > 0 {
      var f := FirstSuffix(s, alts, p + k, 0);
      if f.Some? {
        assert Backtrack(s, alts, p, k) == Some((k, f.value));
      } else {
        BacktrackFirst(s, alts, p, k - 1);
        assert Backtrack(s, alts, p, k) == Backtrack(s, alts, p, k - 1);
      }
    }
  }

  /** The backtracking finds the longest alphanumeric part that some
      alternative follows, with the first such alternative. */
  lemma BacktrackFindsLongest(s: string, alts: seq<string>, p: nat, k: nat)
    requires p + k <= |s| && forall i :: p <= i < p + k ==> IsAsciiAlnum(s[i])
    ensures var r := Backtrack(s, alts, p, k);
      && (r.Some? ==> OrgMatchesAt(s, alts, p, r.value.0, r.value.1))
      && (r.Some? ==> forall j: nat :: j < r.value.1 ==> !OrgMatchesAt(s, alts, p, r.value.0, j))
      && (r.Some? ==> forall k': nat, j: nat :: r.value.0 < k' <= k ==> !OrgMatchesAt(s, alts, p, k', j))
      && (r.None? ==> forall k': nat, j: nat :: k' <= k ==> !OrgMatchesAt(s, alts, p, k', j))
  {
    BacktrackSound(s, alts, p, k);
    BacktrackLongest(s, alts, p, k);
  }

  /** A match of the pattern at `p` with the first alternative for its
      length. */
  ghost predicate FirstAlternativeMatch(s: string, alts: seq<string>, p: nat, m: (nat, nat)) {
    OrgMatchesAt(s, alts, p, m.0, m.1) && forall j: nat :: j < m.1 ==> !OrgMatchesAt(s, alts, p, m.0, j)
  }

  /** No match at `p` has an alphanumeric part of length `lo+1` to `hi`. */
  ghost predicate NoMatchLonger(s: string, alts: seq<string>, p: nat, lo: nat, hi: nat) {
    forall k': nat, j: nat :: lo < k' <= hi ==> !OrgMatchesAt(s, alts, p, k', j)
  }

  /** What the backtracking returns is a match, with the first alternative
      for its length. */
  lemma BacktrackSound(s: string, alts: seq<string>, p: nat, k: nat)
    requires p + k <= |s| && forall i :: p <= i < p + k ==> IsAsciiAlnum(s[i])
    ensures Backtrack(s, alts, p, k).Some? ==> FirstAlternativeMatch(s, alts, p, Backtrack(s, alts, p, k).value)
  {
    var r := Backtrack(s, alts, p, k);
    BacktrackFirst(s, alts, p, k);
    if r.Some? {
      FirstAlternativeAt(s, alts, p, r.value);
    }
  }

  /** No longer alphanumeric part than the returned one matches, and none
      at all when nothing is returned. */
  lemma {:induction false} BacktrackLongest(s: string, alts: seq<string>, p: nat, k: nat)
    requires p + k <= |s|
    ensures Backtrack(s, alts, p, k).Some? ==> NoMatchLonger(s, alts, p, Backtrack(s, alts, p, k).value.0, k)
    ensures Backtrack(s, alts, p, k).None? ==> forall k': nat, j: nat :: k' <= k ==> !OrgMatchesAt(s, alts, p, k', j)
    decreases k
  {
    if k > 0 && FirstSuffix(s, alts, p + k, 0).None? {
      BacktrackLongest(s, alts, p, k - 1);
      BacktrackMiss(s, alts, p, k);
      var r := Backtrack(s, alts, p, k - 1);
      if r.Some? {
        NoMatchLongerExtend(s, alts, p, r.value.0, k);
      } else {
        NoneExtend(s, alts, p, k);
      }
    }
  }

  lemma NoMatchLongerExtend(s: string, alts: seq<string>, p: nat, lo: nat, k: nat)
    requires lo < k && NoMatchLonger(s, alts, p, lo, k - 1)
    requires forall j: nat :: !OrgMatchesAt(s, alts, p, k, j)
    ensures NoMatchLonger(s, alts, p, lo, k)
  {
    forall k': nat, j: nat | lo < k' <= k ensures !OrgMatchesAt(s, alts, p, k', j) {
      if k' < k {
        assert lo < k' <= k - 1;
      }
    }
  }

  lemma NoneExtend(s: string, alts: seq<string>, p: nat, k: nat)
    requires 0 < k && forall k': nat, j: nat :: k' <= k - 1 ==> !OrgMatchesAt(s, alts, p, k', j)
    requires forall j: nat :: !OrgMatchesAt(s, alts, p, k, j)
    ensures forall k': nat, j: nat :: k' <= k ==> !OrgMatchesAt(s, alts, p, k', j)
  {
    forall k': nat, j: nat | k' <= k ensures !OrgMatchesAt(s, alts, p, k', j) {
      if k' < k {
        assert k' <= k - 1;
      }
    }
  }

  /** The first alternative after a run of letters and digits gives the
      match of that length. */
  lemma FirstAlternativeAt(s: string, alts: seq<string>, p: nat, m: (nat, nat))
    requires 1 <= m.0 && p + m.0 <= |s| && forall i :: p <= i < p + m.0 ==> IsAsciiAlnum(s[i])
    requires FirstSuffix(s, alts, p + m.0, 0) == Some(m.1)
    ensures FirstAlternativeMatch(s, alts, p, m)
  {
    var (k, j) := m;
    FirstSuffixFinds(s, alts, p + k, 0);
    forall j': nat | j' < j ensures !OrgMatchesAt(s, alts, p, k, j') {
      assert !SuffixAt(s, alts, p + k, j');
    }
  }

  /** Without an alternative after the full run, no match has that length
      and the search goes on with a shorter run. */
  lemma BacktrackMiss(s: string, alts: seq<string>, p: nat, k: nat)
    requires 1 <= k && p + k <= |s|
    requires FirstSuffix(s, alts, p + k, 0).None?
    ensures Backtrack(s, alts, p, k) == Backtrack(s, alts, p, k - 1)
    ensures forall j: nat :: !OrgMatchesAt(s, alts, p, k, j)
  {
    FirstSuffixFinds(s, alts, p + k, 0);
    forall j: nat ensures !OrgMatchesAt(s, alts, p, k, j) {
      if j < |alts| {
        assert !SuffixAt(s, alts, p + k, j);
      }
    }
  }

  /** The company pattern anchored at `p`: the longest alphanumeric part
      that some alternative follows, then the first such alternative. */
  function OrgMatchAt(s: string, alts: seq<string>, p: nat): Option<(nat, nat)>
    requires p <= |s|
  {
    Backtrack(s, alts, p, AlnumRun(s, p))
  }

  /** What the anchored match finds is a match, no other match at `p` has
      a longer alphanumeric part or an earlier alternative of the same
      length, and it finds nothing only when nothing matches at `p`. */
  lemma OrgMatchAtLongest(s: string, alts: seq<string>, p: nat)
    requires p <= |s|
    ensures var r := OrgMatchAt(s, alts, p);
      r.Some? ==> OrgMatchesAt(s, alts, p, r.value.0, r.value.1)
    ensures var r := OrgMatchAt(s, alts, p);
      r.Some? ==> forall k: nat, j: nat :: OrgMatchesAt(s, alts, p, k, j) ==>
      (k < r.value.0 || (k == r.value.0 && r.value.1 <= j))
    ensures OrgMatchAt(s, alts, p).None? ==> forall k: nat, j: nat :: !OrgMatchesAt(s, alts, p, k, j)
  {
    BacktrackFindsLongest(s, alts, p, AlnumRun(s, p));
  }

  /** Where the company pattern matches: start, alphanumeric length and
      alternative. */
  datatype OrgHit = OrgHit(start: nat, run: nat, suffix: nat)

  /** The leftmost start at or after `from` where the company pattern
      matches. */
  function FindOrg(s: string, alts: seq<string>, from: nat): (r: Option<OrgHit>)
    requires from <= |s|
    ensures r.Some? ==> (from <= r.value.start && r.value.suffix < |alts|
      && r.value.start + r.value.run + |alts[r.value.suffix]| <= |s|)
    decreases |s| - from
  {
    match OrgMatchAt(s, alts, from)
    case Some((k, j)) =>
      OrgMatchAtLongest(s, alts, from);
      Some(OrgHit(from, k, j))
    case None => if from == |s| then None else FindOrg(s, alts, from + 1)
  }

  /** The start found is where the pattern's own match is. */
  lemma {:induction false} FindOrgAt(s: string, alts: seq<string>, from: nat)
    requires from <= |s|
    ensures FindOrg(s, alts, from).Some? ==> var h := FindOrg(s, alts, from).value;
      h.start <= |s| && OrgMatchAt(s, alts, h.start) == Some((h.run, h.suffix))
    decreases |s| - from
  {
    var here := OrgMatchAt(s, alts, from);
    if here.Some? {
      assert FindOrg(s, alts, from) == Some(OrgHit(from, here.value.0, here.value.1));
    } else if from < |s| {
      FindOrgAt(s, alts, from + 1);
      assert FindOrg(s, alts, from) == FindOrg(s, alts, from + 1);
    }
  }

  /** The match the search returns is one of the pattern. */
  lemma FindOrgMatches(s: string, alts: seq<string>, from: nat)
    requires from <= |s|
    ensures FindOrg(s, alts, from).Some? ==> var h := FindOrg(s, alts, from).value;
      OrgMatchesAt(s, alts, h.start, h.run, h.suffix)
  {
    FindOrgAt(s, alts, from);
    if FindOrg(s, alts, from).Some? {
      OrgMatchAtLongest(s, alts, FindOrg(s, alts, from).value.start);
    }
  }

  /** Nothing matches at any start before the one found. */
  lemma {:induction false} FindOrgLeftmost(s: string, alts: seq<string>, from: nat)
    requires from <= |s| && FindOrg(s, alts, from).Some?
    ensures forall p: nat, k: nat, j: nat :: from <= p < FindOrg(s, alts, from).value.start ==> !OrgMatchesAt(s, alts, p, k, j)
    decreases |s| - from
  {
    var start := FindOrg(s, alts, from).value.start;
    OrgMatchAtLongest(s, alts, from);
    if OrgMatchAt(s, alts, from).None? {
      assert from < |s|;
      FindOrgLeftmost(s, alts, from + 1);
      assert FindOrg(s, alts, from) == FindOrg(s, alts, from + 1);
      forall p: nat, k: nat, j: nat | from <= p < start ensures !OrgMatchesAt(s, alts, p, k, j) {
        if p > from {
          assert from + 1 <= p < start;
        }
      }
    }
  }

  /** When no start is found, nothing matches anywhere from `from` on. */
  lemma {:induction false} FindOrgNone(s: string, alts: seq<string>, from: nat)
    requires from <= |s| && FindOrg(s, alts, from).None?
    ensures forall p: nat, k: nat, j: nat :: from <= p ==> !OrgMatchesAt(s, alts, p, k, j)
    decreases |s| - from
  {
    assert OrgMatchAt(s, alts, from).None?;
    OrgMatchAtLongest(s, alts, from);
    if from == |s| {
      forall p: nat, k: nat, j: nat | from <= p ensures !OrgMatchesAt(s, alts, p, k, j) {
        if p > from {
          assert !(p + k <= |s| && 1 <= k);
        }
      }
    } else {
      FindOrgNone(s, alts, from + 1);
      forall p: nat, k: nat, j: nat | from <= p ensures !OrgMatchesAt(s, alts, p, k, j) {
        if p > from {
          assert from + 1 <= p;
        }
      }
    }
  }

  /** The organization token of a title: the leftmost company-suffix match
      (suffix included, as written), else the leading alphanumeric run,
      else "unknown". */
  function ExtractOrganization(title: string): (r: string)
    ensures r != []
  {
    match FindOrg(title, OrgSuffixes, 0)
    case Some(h) =>
      title[h.start..h.start + h.run + |OrgSuffixes[h.suffix]|]
    case None =>
      var k := AlnumRun(title, 0);
      if k > 0 then title[..k] else "unknown"
  }

  /** The search finds the preferred match at the leftmost start. */
  lemma FindOrgFindsPreferred(title: string, alts: seq<string>, p: nat, k: nat, j: nat)
    requires OrgMatchesAt(title, alts, p, k, j)
    requires forall q: nat, k': nat, j': nat :: q < p ==> !OrgMatchesAt(title, alts, q, k', j')
    requires forall k': nat, j': nat :: OrgMatchesAt(title, alts, p, k', j') ==> k' < k || (k' == k && j <= j')
    ensures FindOrg(title, alts, 0) == Some(OrgHit(p, k, j))
  {
    if FindOrg(title, alts, 0).None? {
      FindOrgNone(title, alts, 0);
      assert false;
    }
    var h := FindOrg(title, alts, 0).value;
    FindOrgAt(title, alts, 0);
    OrgMatchAtLongest(title, alts, h.start);
    FindOrgLeftmost(title, alts, 0);
    assert OrgMatchesAt(title, alts, h.start, h.run, h.suffix);
    assert p < h.start ==> !OrgMatchesAt(title, alts, p, k, j);
    assert h.start < p ==> !OrgMatchesAt(title, alts, h.start, h.run, h.suffix);
    assert h.start == p;
    assert k < h.run || (k == h.run && h.suffix <= j);
    assert h.run < k || (h.run == k && j <= h.suffix);
  }

  /** With a company match at `p`, none before it, and no other match at
      `p` preferred to it, the token is that match, suffix included. */
  lemma ExtractOrganizationMatch(title: string, p: nat, k: nat, j: nat)
    requires OrgMatchesAt(title, OrgSuffixes, p, k, j)
    requires forall q: nat, k': nat, j': nat :: q < p ==> !OrgMatchesAt(title, OrgSuffixes, q, k', j')
    requires forall k': nat, j': nat :: OrgMatchesAt(title, OrgSuffixes, p, k', j') ==> k' < k || (k' == k && j <= j')
    ensures ExtractOrganization(title) == title[p..p + k + |OrgSuffixes[j]|]
  {
    FindOrgFindsPreferred(title, OrgSuffixes, p, k, j);
  }

  /** Without a company match anywhere, the token is the leading run of
      ASCII letters and digits, or "unknown" when the title starts with
      anything else. */
  lemma ExtractOrganizationNoMatch(title: string)
    requires forall q: nat, k: nat, j: nat :: !OrgMatchesAt(title, OrgSuffixes, q, k, j)
    ensures var r := ExtractOrganization(title);
      && (AlnumRun(title, 0) > 0 ==> r == title[..AlnumRun(title, 0)] && forall i :: 0 <= i < |r| ==> IsAsciiAlnum(r[i]))
      && (AlnumRun(title, 0) == 0 ==> r == "unknown")
  {
    FindOrgMatches(title, OrgSuffixes, 0);
  }

  lemma ExtractOrganizationSuffixExample()
    ensures ExtractOrganization("Acme社の事例") == "Acme社"
  {
    var s := "Acme社の事例";
    assert AlnumRun(s, 0) == 4;
    assert SuffixAt(s, OrgSuffixes, 4, 0);
  }

  lemma ExtractOrganizationRunExample()
    ensures ExtractOrganization("n8n") == "n8n"
  {
    var t := "n8n";
    assert AlnumRun(t, 0) == 3;
    assert forall p: nat, k: nat, j: nat :: !OrgMatchesAt(t, OrgSuffixes, p, k, j);
    FindOrgMatches(t, OrgSuffixes, 0);
  }

  /** The product token: the first comma-separated entry, trimmed, else
      "n8n". */
  function ExtractProduct(tools: string): (r: string)
    ensures r != []
    ensures Trim(BeforeFirst(tools, ',')) != [] ==> r == Trim(BeforeFirst(tools, ','))
    ensures Trim(BeforeFirst(tools, ',')) == [] ==> r == "n8n"
    ensures ',' !in r || r == "n8n"
  {
    var first := Trim(BeforeFirst(tools, ','));
    if first != [] then
      assert forall c :: c in first ==> c in BeforeFirst(tools, ',');
      first
    else "n8n"
  }

  /** `c`, or '_' when `c` is not an ASCII letter or digit. */
  function UsecaseChar(c: char): (r: char)
    ensures IsAsciiAlnum(c) ==> r == c
    ensures !IsAsciiAlnum(c) ==> r == '_'
  {
    if IsAsciiAlnum(c) then c else '_'
  }

  /** The use-case token: the sub-domain with every character other than
      an ASCII letter or digit replaced by '_', else "automation". */
  function ExtractUsecase(subDomain: string): (r: string)
    ensures subDomain != [] ==> |r| == |subDomain|
    ensures subDomain != [] ==> forall i :: 0 <= i < |r| ==> r[i] == UsecaseChar(subDomain[i])
    ensures subDomain == [] ==> r == "automation"
    ensures forall i :: 0 <= i < |r| ==> IsAsciiAlnum(r[i]) || r[i] == '_'
  {
    if subDomain == [] then "automation"
    else seq(|subDomain|, i requires 0 <= i < |subDomain| => UsecaseChar(subDomain[i]))
  }

  /** The domain token: the URL's host name with '.' replaced by '_', or
      "unknown_domain" when the URL does not parse. URL parsing is the
      parameter `hostOf`. */
  function ExtractDomain(url: string, hostOf: string -> Option<string>): (r: string)
    ensures hostOf(url).Some? ==> |r| == |hostOf(url).value| && '.' !in r
    ensures hostOf(url).Some? ==> forall i :: 0 <= i < |r| ==>
      r[i] == (if hostOf(url).value[i] == '.' then '_' else hostOf(url).value[i])
    ensures hostOf(url).None? ==> r == "unknown_domain"
  {
    match hostOf(url)
    case None => "unknown_domain"
    case Some(h) => seq(|h|, i requires 0 <= i < |h| => if h[i] == '.' then '_' else h[i])
  }

  // ---------------------------------------------------------------------
  // De-duplication key
  // ---------------------------------------------------------------------

  predicate IsKeyChar(c: char) {
    ('a' <= c <= 'z') || IsDigit(c) || c == '_'
  }

  predicate IsUnderscore(c: char) {
    c == '_'
  }

  /** The key alphabet is `[a-z0-9_]` and the key never contains "__". */
  predicate KeyShaped(k: string) {
    && (forall i :: 0 <= i < |k| ==> IsKeyChar(k[i]))
    && (forall i :: 0 <= i < |k| - 1 ==> !(k[i] == '_' && k[i + 1] == '_'))
  }

  /** Every character outside `[a-z0-9_]` becomes '_'. */
  function ReplaceNonKey(s: string): (r: string)
    ensures |r| == |s|
    ensures forall i :: 0 <= i < |s| ==> r[i] == (if IsKeyChar(s[i]) then s[i] else '_')
  {
    seq(|s|, i requires 0 <= i < |s| => if IsKeyChar(s[i]) then s[i] else '_')
  }

  /** The key clean-up: non-key characters to '_', runs of '_' to one,
      at most 200 characters. */
  function KeyText(s: string): (r: string)
    ensures KeyShaped(r)
    ensures |r| <= 200 && |r| <= |s|
    ensures s != [] ==> r != []
  {
    var c := CollapseRuns(ReplaceNonKey(s), IsUnderscore, '_');
    CollapseRunsFrom(ReplaceNonKey(s), IsUnderscore, '_', IsKeyChar);
    CollapseRunsShape(ReplaceNonKey(s), IsUnderscore, '_');
    Take(c, 200)
  }

  /** A key-shaped text of at most 200 characters is its own clean-up. */
  lemma KeyTextFixpoint(k: string)
    requires KeyShaped(k) && |k| <= 200
    ensures KeyText(k) == k
  {
    assert ReplaceNonKey(k) == k;
    CollapseRunsFixpoint(k, IsUnderscore, '_');
  }

  lemma KeyTextIdempotent(s: string)
    ensures KeyText(KeyText(s)) == KeyText(s)
  {
    KeyTextFixpoint(KeyText(s));
  }

  /** The four key tokens of a record. */
  function KeyParts(rec: CaseStudyRecord, hostOf: string -> Option<string>): (parts: seq<string>)
    ensures |parts| == 4 && parts[0] != []
  {
    [ExtractOrganization(rec.title), ExtractProduct(rec.externalTools),
     ExtractUsecase(rec.subDomain), ExtractDomain(rec.sourceUrl, hostOf)]
  }

  /** The record's de-duplication key: its four tokens joined with '_',
      lower-cased and cleaned up. */
  function GenerateDedupKey(rec: CaseStudyRecord, hostOf: string -> Option<string>): (r: string)
    ensures KeyShaped(r)
    ensures 1 <= |r| <= 200
  {
    var parts := KeyParts(rec, hostOf);
    var joined := Join(parts, "_");
    assert joined == parts[0] + "_" + Join(parts[1..], "_");
    KeyText(Lower(joined))
  }

  /** Two records that agree on title, tools, sub-domain and source URL
      get the same key. */
  lemma DedupKeyDependsOnSources(a: CaseStudyRecord, b: CaseStudyRecord, hostOf: string -> Option<string>)
    requires a.title == b.title && a.externalTools == b.externalTools
    requires a.subDomain == b.subDomain && a.sourceUrl == b.sourceUrl
    ensures GenerateDedupKey(a, hostOf) == GenerateDedupKey(b, hostOf)
  {
  }

  // ---------------------------------------------------------------------
  // Whole-record normalization
  // ---------------------------------------------------------------------

  /** The record with industry, difficulty and key normalized; every other
      column is copied. */
  function NormalizeRecord(rec: CaseStudyRecord, cfg: IndustryConfig, hostOf: string -> Option<string>): (r: CaseStudyRecord)
    ensures r.(industry := rec.industry, difficulty := rec.difficulty, dedupKey := rec.dedupKey) == rec
    ensures r.difficulty in DifficultyLevels
    ensures KeyShaped(r.dedupKey) && 1 <= |r.dedupKey| <= 200
    ensures ClosedVocabulary(cfg) ==> r.industry in cfg.industries
  {
    assert ClosedVocabulary(cfg) ==> NormalizeIndustry(rec.industry, cfg) in cfg.industries by {
      if ClosedVocabulary(cfg) {
        NormalizeIndustryInVocabulary(rec.industry, cfg);
      }
    }
    rec.(industry := NormalizeIndustry(rec.industry, cfg),
         difficulty := NormalizeDifficulty(rec.difficulty),
         dedupKey := GenerateDedupKey(rec, hostOf))
  }

  /** Normalizing a normalized record changes nothing. */
  lemma NormalizeRecordIdempotent(rec: CaseStudyRecord, cfg: IndustryConfig, hostOf: string -> Option<string>)
    requires ClosedVocabulary(cfg)
    ensures NormalizeRecord(NormalizeRecord(rec, cfg, hostOf), cfg, hostOf) == NormalizeRecord(rec, cfg, hostOf)
  {
    var once := NormalizeRecord(rec, cfg, hostOf);
    NormalizeIndustryIdempotent(rec.industry, cfg);
    NormalizeDifficultyIdempotent(rec.difficulty);
    DedupKeyDependsOnSources(once, rec, hostOf);
  }

  // ---------------------------------------------------------------------
  // De-duplication and IDs
  // ---------------------------------------------------------------------

  /** De-duplication keys every record by its 重複判定キー, empty or not. */
  function DedupKeyOf(rec: CaseStudyRecord): Option<string> {
    Some(rec.dedupKey)
  }

  /** The first record of each 重複判定キー, in input order. */
  function Deduplicated(records: seq<CaseStudyRecord>): seq<CaseStudyRecord> {
    KeepFirst(records, DedupKeyOf, {})
  }

  /** The kept records are a subsequence of the input with pairwise distinct
      keys, and every input key is kept. */
  lemma DeduplicatedProperties(records: seq<CaseStudyRecord>)
    ensures IsSubseq(Deduplicated(records), records)
    ensures forall i, j :: 0 <= i < j < |Deduplicated(records)| ==>
      Deduplicated(records)[i].dedupKey != Deduplicated(records)[j].dedupKey
    ensures forall i :: 0 <= i < |records| ==>
      exists m :: 0 <= m < |Deduplicated(records)| && Deduplicated(records)[m].dedupKey == records[i].dedupKey
  {
    var unique := Deduplicated(records);
    KeepFirstIsSubseq(records, DedupKeyOf, {});
    KeepFirstKeys(records, DedupKeyOf, {});
    assert KeysDistinct(unique, DedupKeyOf);
    forall i, j | 0 <= i < j < |unique| ensures unique[i].dedupKey != unique[j].dedupKey {
      assert DedupKeyOf(unique[i]) != DedupKeyOf(unique[j]);
    }
    forall i | 0 <= i < |records|
      ensures exists m :: 0 <= m < |unique| && unique[m].dedupKey == records[i].dedupKey
    {
      KeepFirstCoversKeys(records, DedupKeyOf, i);
    }
  }

  /** First-seen-wins de-duplication by 重複判定キー, with the set of keys
      seen so far. */
  method DeduplicateRecords(records: seq<CaseStudyRecord>) returns (unique: seq<CaseStudyRecord>)
    ensures unique == Deduplicated(records)
    ensures IsSubseq(unique, records)
    ensures forall i, j :: 0 <= i < j < |unique| ==> unique[i].dedupKey != unique[j].dedupKey
    ensures forall i :: 0 <= i < |records| ==>
      exists m :: 0 <= m < |unique| && unique[m].dedupKey == records[i].dedupKey
  {
    var seen: set<string> := {};
    unique := [];
    var n := 0;
    while n < |records|
      invariant n <= |records|
      invariant unique + KeepFirst(records[n..], DedupKeyOf, seen) == Deduplicated(records)
    {
      var rec := records[n];
      var rest := records[n + 1..];
      assert records[n..] == [rec] + rest;
      assert DedupKeyOf(rec) == Some(rec.dedupKey);
      if rec.dedupKey !in seen {
        assert KeepFirst([rec] + rest, DedupKeyOf, seen) == [rec] + KeepFirst(rest, DedupKeyOf, seen + {rec.dedupKey});
        assert (unique + [rec]) + KeepFirst(rest, DedupKeyOf, seen + {rec.dedupKey})
          == unique + ([rec] + KeepFirst(rest, DedupKeyOf, seen + {rec.dedupKey}));
        seen := seen + {rec.dedupKey};
        unique := unique + [rec];
      } else {
        assert KeepFirst([rec] + rest, DedupKeyOf, seen) == KeepFirst(rest, DedupKeyOf, seen);
      }
      n := n + 1;
    }
    assert records[n..] == [];
    assert unique + [] == unique;
    DeduplicatedProperties(records);
  }

  /** De-duplicating twice is de-duplicating once. */
  lemma DeduplicateIdempotent(records: seq<CaseStudyRecord>)
    ensures Deduplicated(Deduplicated(records)) == Deduplicated(records)
  {
    KeepFirstIdempotent(records, DedupKeyOf);
  }

  /** The ID for position `n` (1-based): its decimal form, zero-padded
      to three characters. */
  function FormatId(n: nat): (r: string)
    ensures AllDigits(r)
    ensures |r| == if n < 1000 then 3 else |DecimalString(n)|
    ensures n >= 100 ==> r == DecimalString(n)
  {
    var d := DecimalString(n);
    assert n >= 100 ==> |d| >= 3 by {
      if n >= 100 {
        DecimalStringLength(n);
      }
    }
    assert n < 1000 ==> |d| <= 3 by {
      if n < 1000 {
        DecimalStringLength(n);
      }
    }
    var r := PadStart(d, 3, '0');
    LeadingZerosValue(|r| - |d|, d);
    r
  }

  /** `DecimalString(n)` has at least 3 digits iff n >= 100, and at most 3
      iff n < 1000. */
  lemma DecimalStringLength(n: nat)
    ensures n >= 100 <==> |DecimalString(n)| >= 3
    ensures n < 1000 <==> |DecimalString(n)| <= 3
  {
    if n >= 10 {
      var m := n / 10;
      DecimalStringStep(n);
      assert n >= 100 <==> m >= 10;
      assert n < 1000 <==> m < 100;
      if m >= 10 {
        var q := m / 10;
        DecimalStringStep(m);
        assert m < 100 <==> q < 10;
        if q >= 10 {
          DecimalStringStep(q);
        }
      }
    }
  }

  /** A number of two or more digits is written as its tenth, then one
      digit. */
  lemma DecimalStringStep(n: nat)
    requires n >= 10
    ensures |DecimalString(n)| == |DecimalString(n / 10)| + 1
  {
  }

  /** The ID reads back as its position. */
  lemma FormatIdValue(n: nat)
    ensures DecimalValue(FormatId(n)) == n
    ensures ParseInt(FormatId(n)) == Some(n)
  {
    var d := DecimalString(n);
    var r := FormatId(n);
    assert r == Repeat('0', |r| - |d|) + d;
    LeadingZerosValue(|r| - |d|, d);
    DecimalRoundTrip(n);
    ParseIntOfDigits(r);
  }

  lemma FormatIdInjective(m: nat, n: nat)
    requires FormatId(m) == FormatId(n)
    ensures m == n
  {
    FormatIdValue(m);
    FormatIdValue(n);
  }

  lemma FormatIdExamples()
    ensures FormatId(1) == "001"
    ensures FormatId(42) == "042"
    ensures FormatId(1000) == "1000"
  {
    assert DecimalString(42) == DecimalString(4) + [DigitChar(2)];
    assert DecimalString(1000) == DecimalString(100) + [DigitChar(0)];
    assert DecimalString(100) == DecimalString(10) + [DigitChar(0)];
    assert DecimalString(10) == DecimalString(1) + [DigitChar(0)];
  }

  /** Record `i` gets ID `FormatId(i + 1)`; everything else is kept. */
  function AssignIds(records: seq<CaseStudyRecord>): (r: seq<CaseStudyRecord>)
    ensures |r| == |records|
    ensures forall i :: 0 <= i < |r| ==> r[i].id == FormatId(i + 1)
    ensures forall i :: 0 <= i < |r| ==> r[i].(id := records[i].id) == records[i]
  {
    seq(|records|, i requires 0 <= i < |records| => records[i].(id := FormatId(i + 1)))
  }

  /** No two records get the same ID. */
  lemma AssignIdsDistinct(records: seq<CaseStudyRecord>)
    ensures var r := AssignIds(records);
      forall i, j :: 0 <= i < j < |r| ==> r[i].id != r[j].id
  {
    var r := AssignIds(records);
    forall i, j | 0 <= i < j < |r| ensures r[i].id != r[j].id {
      if r[i].id == r[j].id {
        FormatIdInjective(i + 1, j + 1);
      }
    }
  }
}
