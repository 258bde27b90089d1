# Research pipeline core, modelled in Dafny

This project models the deterministic core of a research pipeline. The pipeline searches the web for n8n workflow case studies, fetches the pages and asks an LLM to extract a 20-field record from each. It then normalizes, de-duplicates, numbers and reports the records. The model covers:

- **Normalization** (`normalize.dfy`): the industry vocabulary and its synonym table, the "1".."5" difficulty, the `[a-z0-9_]` de-duplication key and its helper tokens, first-seen de-duplication and zero-padded IDs.
- **Research engine** (`research_engine.dfy`): the template-driven engine.
  - The per-task outcome rule is modelled as a `ResearchRun` class that accumulates records and log lines.
  - The log line is built field by field in a `LogEntry` object.
  - Also modelled: the configurable de-duplication, the IDs and the abort on an empty extraction.
- **Retry** (`retry.dfy`): the retry loop with exponential back-off and its default eligibility predicate.
- **Search** (`search.dfy`): domain scoring, the blocklist- and URL-based merge, and the stable descending sort.
- **Fetch** (`fetch.dfy`): the content-type and length gates, and the title, date and language/region precedence tables. It also covers the main-content selection and `cleanText`.
- **LLM post-processing** (`llm_extract_claude.dfy`, `llm_providers.dfy`): required-field validation, the `推定:` override, fenced-JSON payload selection and the two-attempt loop. It also covers provider selection and the Anthropic provider's payload selection.
- **Prompts and templates** (`prompt_generator.dfy`, `extraction_prompt.dfy`, `template_loader.dfy`): `{{ key }}` substitution, the fixed extraction prompt, and the template guard chain with its error wrapping.
- **Report helpers** (`output.dfy`): chunking, Markdown escaping, group counts, the Markdown table, the per-chunk section layout and the focus-industry filter.

Shared modules:

- `jsstring.dfy` states the JavaScript string operations each of these relies on: `trim`, `toLowerCase`, `includes`, `split`, `padStart`, `parseInt`, `String(n)` and run-collapsing `replace`.
  - They are stated on `seq<char>`, one character per UTF-16 code unit, so the 400, 6000 and 200 limits are JavaScript `.length`.
  - White space is exactly the set the regular-expression class `\s` matches.
- `seqs.dfy` holds subsequences, `Filter`, `Flatten` and `KeepFirst`. `KeepFirst` is the single first-occurrence-wins specification behind all three de-duplications and the group counts.
- `schema.dfy` holds the record types.
- `wrappers.dfy` holds `Option` and `Result`.

Collaborators the model cannot see are parameters:

- URL parsing (`hostOf`, `normalizeUrl`), date parsing (`normalizeDate`) and `JSON.parse` (`parseJson`);
- the YAML loader, the file system and the fetched pages;
- the model's replies (`call`), the extractor, and the sequence of outcomes of a retried function (`fn`).

Tasks run one after another, in completion order.

## Model

| member | source | states |
|---|---|---|
| Normalize.NormalizeRecord | src/modules/normalize.ts:7-14 | only 業種, 実装難易度 and 重複判定キー change, and every other field is copied; the difficulty is one of "1".."5"; the key is `[a-z0-9_]`, has no "__" and is 1..200 long; the industry is in the vocabulary when the synonym targets are |
| Normalize.NormalizeRecordIdempotent | src/modules/normalize.ts:7-14 | normalizing a normalized record changes nothing, when the synonym targets are in the vocabulary |
| Normalize.FirstSynonym | src/modules/normalize.ts:30-34 | finds the first mapping whose lower-cased key occurs in the input; every earlier mapping fails |
| Normalize.NormalizeIndustry | src/modules/normalize.ts:19-38 | a value in the vocabulary is returned as is; otherwise the first mapping whose lower-cased key is a substring of the lower-cased, trimmed input decides, and 'その他' comes back when none applies |
| Normalize.NormalizeIndustryInVocabulary | src/modules/normalize.ts:19-38 | the result lies in the vocabulary whenever every synonym target and 'その他' do |
| Normalize.NormalizeIndustryIdempotent | src/modules/normalize.ts:19-38 | normalizing twice equals normalizing once |
| Normalize.NormalizeDifficulty | src/modules/normalize.ts:43-59 | always returns "1".."5"; a parsed integer below 1 gives "1", above 5 gives "5", and in range gives its decimal string; non-numeric text is checked for 簡単/単純 → "1", then 中程度/普通 → "3", then 複雑/高度 → "5", else "3" |
| Normalize.NormalizeDifficultyIdempotent | src/modules/normalize.ts:43-59 | a normalized difficulty is left unchanged |
| Normalize.LevelIsFixed | src/modules/normalize.ts:55-58 | each of "1".."5" maps to itself |
| Normalize.LevelIsFixedAt | src/modules/normalize.ts:55-58 | a single digit 1..5 maps to itself |
| Normalize.NormalizeDifficultyClampExamples | src/modules/normalize.ts:55-56 | "0" → "1", "7" → "5", "9" → "5" |
| Normalize.NormalizeDifficultyPrefixExample | src/modules/normalize.ts:44 | parseInt reads a leading integer: "4 (やや複雑)" → "4" |
| Normalize.NormalizeDifficultyKeywordExample | src/modules/normalize.ts:50 | "高度" → "5" |
| Normalize.KeywordHard | src/modules/normalize.ts:46-50 | non-numeric text with no easy or medium keyword but with 高度 gives "5" |
| Normalize.AlnumRun | src/modules/normalize.ts:94 | the maximal run of ASCII letters and digits at a position |
| Normalize.MatchesIgnoreCaseAtIff | src/modules/normalize.ts:93 | the case-insensitive literal match is ASCII case-insensitive equality of the slice |
| Normalize.FirstSuffixFinds | src/modules/normalize.ts:93 | the first company suffix, in alternation order, that matches at a position |
| Normalize.FirstSuffix | src/modules/normalize.ts:93 | a reported suffix index lies within the alternation |
| Normalize.MatchesIgnoreCaseAt | src/modules/normalize.ts:93 | a case-insensitive match lies within the text |
| Normalize.Backtrack | src/modules/normalize.ts:93 | a reported run is 1..k long and its suffix lies within the alternation |
| Normalize.BacktrackFirst | src/modules/normalize.ts:93 | the reported suffix is the first alternative that matches after the run |
| Normalize.FindOrg | src/modules/normalize.ts:92-94 | a hit starts at or after the scan's start and its match lies within the text |
| Normalize.FindOrgAt | src/modules/normalize.ts:92-94 | a hit is the match at its own start position |
| Normalize.BacktrackFindsLongest | src/modules/normalize.ts:93 | greedy backtracking returns the longest alphanumeric run followed by a suffix, with the first suffix that matches after it |
| Normalize.BacktrackSound | src/modules/normalize.ts:93 | the backtracking result is a run followed by its first matching suffix |
| Normalize.BacktrackLongest | src/modules/normalize.ts:93 | no longer run is followed by any suffix; when nothing is found, no run at all is |
| Normalize.OrgMatchAtLongest | src/modules/normalize.ts:93 | at a fixed start, the regular expression's match is the longest run with its first suffix, and no match exists when it reports none |
| Normalize.FindOrgMatches | src/modules/normalize.ts:93 | the scan's hit is a real match |
| Normalize.FindOrgLeftmost | src/modules/normalize.ts:93 | no match starts before the scan's hit |
| Normalize.FindOrgNone | src/modules/normalize.ts:93 | when the scan finds nothing, no company-name match exists anywhere |
| Normalize.FindOrgFindsPreferred | src/modules/normalize.ts:92-94 | the leftmost start with the longest run and the first suffix is exactly what the scan returns |
| Normalize.ExtractOrganization | src/modules/normalize.ts:87-97 | the organization token is never empty |
| Normalize.ExtractOrganizationMatch | src/modules/normalize.ts:92-96 | with a company-suffix match, the token is the leftmost, longest match including its suffix |
| Normalize.ExtractOrganizationNoMatch | src/modules/normalize.ts:92-96 | without a suffix match, the token is the leading alphanumeric run, else 'unknown' |
| Normalize.ExtractOrganizationSuffixExample | src/modules/normalize.ts:92-96 | "Acme社の事例" → "Acme社" |
| Normalize.ExtractOrganizationRunExample | src/modules/normalize.ts:94-96 | "n8n" → "n8n" through the leading-run fallback |
| Normalize.ExtractProduct | src/modules/normalize.ts:102-108 | the trimmed first comma entry when it is non-empty, else 'n8n'; never empty; holds no comma unless it is 'n8n' |
| Normalize.UsecaseChar | src/modules/normalize.ts:115 | ASCII letters and digits are kept; every other character becomes '_' |
| Normalize.ExtractUsecase | src/modules/normalize.ts:113-118 | サブ領域 with each non-alphanumeric character replaced by '_', length kept; 'automation' when empty |
| Normalize.ExtractDomain | src/modules/normalize.ts:123-130 | the host with every '.' replaced by '_'; 'unknown_domain' when the URL does not parse |
| Normalize.ReplaceNonKey | src/modules/normalize.ts:77 | every character outside `[a-z0-9_]` becomes '_', length kept |
| Normalize.KeyText | src/modules/normalize.ts:76-79 | after replacing, collapsing '_' runs and cutting to 200: only `[a-z0-9_]`, no "__", at most 200 and at most the input's length, non-empty for non-empty input |
| Normalize.KeyTextFixpoint | src/modules/normalize.ts:76-79 | a key that is already shaped and at most 200 long is left unchanged |
| Normalize.KeyTextIdempotent | src/modules/normalize.ts:76-79 | cleaning a key twice equals cleaning it once |
| Normalize.KeyParts | src/modules/normalize.ts:66-71 | four tokens, the organization first and non-empty |
| Normalize.GenerateDedupKey | src/modules/normalize.ts:64-82 | the key is `[a-z0-9_]`, has no "__" and is 1..200 long |
| Normalize.DedupKeyDependsOnSources | src/modules/normalize.ts:64-82 | the key depends only on タイトル, 外部API/連携ツール, サブ領域 and 出典URL |
| Normalize.DeduplicatedProperties | src/modules/normalize.ts:135-153 | the result is a subsequence of the input, its keys are pairwise distinct, and every input key still appears |
| Normalize.DeduplicateRecords | src/modules/normalize.ts:135-153 | the Set-and-push loop computes the first-seen de-duplication: subsequence, distinct keys, every key kept |
| Normalize.DeduplicateIdempotent | src/modules/normalize.ts:135-153 | de-duplicating twice equals de-duplicating once |
| Normalize.FormatId | src/modules/normalize.ts:161 | `String(n).padStart(3,'0')` is all digits, 3 long below 1000, and the plain decimal from 100 on |
| Normalize.DecimalStringLength | src/modules/normalize.ts:161 | a decimal string has at least 3 digits from 100 on and at most 3 below 1000 |
| Normalize.FormatIdValue | src/modules/normalize.ts:161 | the padded ID reads back as n |
| Normalize.FormatIdInjective | src/modules/normalize.ts:161 | different positions get different IDs |
| Normalize.FormatIdExamples | src/modules/normalize.ts:161 | 1 → "001", 42 → "042", 1000 → "1000" |
| Normalize.AssignIds | src/modules/normalize.ts:158-163 | length and order are kept; element i gets FormatId(i+1); every other field is unchanged |
| Normalize.AssignIdsDistinct | src/modules/normalize.ts:158-163 | the assigned IDs are pairwise distinct |
| FirstSeen.KeepFirstKeys | src/modules/normalize.ts:139-148 | first-seen filtering yields keys that are fresh with respect to the seen set and pairwise distinct |
| FirstSeen.KeepFirstIsSubseq | src/modules/normalize.ts:139-148 | first-seen filtering keeps input order and drops only elements |
| FirstSeen.KeepFirstKeepsFirsts | src/modules/normalize.ts:139-148 | every first occurrence of a key is kept |
| FirstSeen.KeepFirstOnlyFirsts | src/modules/normalize.ts:139-148 | every kept element is a first occurrence of its key |
| FirstSeen.KeepFirstOfDistinct | src/modules/normalize.ts:139-148 | a list with fresh, distinct keys passes through unchanged |
| FirstSeen.KeepFirstIdempotent | src/modules/normalize.ts:139-148 | filtering twice equals filtering once |
| FirstSeen.KeepFirstCoversKeys | src/modules/normalize.ts:139-148 | every key of the input appears in the output |
| FirstSeen.FirstIndexOfKey | src/modules/normalize.ts:139-148 | every keyed element has a first occurrence at or before it |
| JsString.Lower | src/modules/normalize.ts:28 | `toLowerCase` keeps the length and lowers each ASCII capital |
| JsString.AsciiLower | src/modules/normalize.ts:28 | an ASCII capital becomes its lower-case letter; every other character is kept |
| JsString.Trim | src/modules/normalize.ts:28 | `trim` leaves no white space at either end and never lengthens |
| JsString.TrimStart | src/modules/normalize.ts:28 | the leading white space is cut: a suffix whose first character is not white space |
| JsString.TrimStartDropsSpace | src/modules/normalize.ts:28 | everything cut off at the front is white space |
| JsString.SkipSpacesBack | src/modules/normalize.ts:28 | scanning back from a position stops just after the last character that is not white space |
| JsString.TrimEnd | src/modules/normalize.ts:28 | the trailing white space is cut: a prefix whose last character is not white space |
| JsString.TrimEndDropsSpace | src/modules/normalize.ts:28 | everything cut off at the back is white space |
| JsString.TrimDropsSpace | src/modules/normalize.ts:28 | `trim` removes exactly the leading and trailing white space: the result is a slice and everything cut off is white space |
| JsString.TrimKeepsTrimmed | src/modules/normalize.ts:28 | a string that neither starts nor ends with white space is its own trim |
| JsString.TrimIdempotent | src/modules/normalize.ts:28 | trimming twice equals trimming once |
| JsString.IndexOfFrom | src/modules/normalize.ts:31 | `indexOf` finds the first occurrence at or after the start, or reports that there is none |
| JsString.IncludesIff | src/modules/normalize.ts:31 | `includes` holds exactly when an occurrence exists |
| JsString.BeforeFirst | src/modules/normalize.ts:105 | `split(',')[0]` is a prefix without the separator, ending at the first separator |
| JsString.AfterLast | src/modules/fetch.ts:173 | `split('.').pop()` is a suffix without the separator, starting right after the last separator |
| JsString.CollapseRunsShape | src/modules/normalize.ts:78 | after collapsing, every matched character is the replacement and no two matched characters are adjacent |
| JsString.CollapseRuns | src/modules/normalize.ts:78 | never lengthens, and the first character is the replacement when it matches, else itself |
| JsString.CollapseRunsIdempotent | src/modules/normalize.ts:78 | collapsing twice equals collapsing once |
| JsString.DecimalRoundTrip | src/modules/normalize.ts:58 | `String(n)` reads back as n |
| JsString.DecimalString | src/modules/normalize.ts:58 | `String(n)` is all digits, has a leading '0' only for 0, and is one digit long iff n < 10 |
| JsString.PadStart | src/modules/normalize.ts:161 | `padStart` prepends fill characters up to the width and never truncates |
| JsString.LeadingZerosValue | src/modules/normalize.ts:161 | leading zeros do not change a decimal's value |
| JsString.ParseIntOfDigits | src/modules/normalize.ts:44 | `parseInt(s, 10)` of an all-digit string is its decimal value |
| JsString.ParseIntOfDecimal | src/modules/normalize.ts:44 | `parseInt(String(n), 10)` is n |
| ResearchEngine.InitialHint | src/framework/research-engine.ts:152-155 | 'primary' exactly when the host contains some primary-information domain |
| ResearchEngine.LoggedInfoType | src/framework/research-engine.ts:173 | the record's 情報の種類, or 'unknown' when it is missing or empty |
| ResearchEngine.LoggedDate | src/framework/research-engine.ts:174 | the record's 公開日/更新日, or '' when it is missing |
| ResearchEngine.LoggedIgnoresUrl | src/framework/research-engine.ts:168-174 | overwriting 出典URL does not change the logged type or date |
| ResearchEngine.TaskLogStatus | src/framework/research-engine.ts:131-183 | exactly one status per task: 'skipped' with its reason iff the fetch yields nothing; 'failed' with the error on a thrown fetch or extraction; 'failed' with 'LLM extraction failed' on no record; 'success' iff a record came back |
| ResearchEngine.TaskRecordOnSuccess | src/framework/research-engine.ts:160-172 | a record is contributed iff the log says 'success', and its 出典URL is the search result's URL |
| ResearchEngine.TaskLogTime | src/framework/research-engine.ts:131-183 | time_sec stays 0 for skipped and LLM-failed entries; it is the elapsed time on success and on a thrown error |
| ResearchEngine.LogEntry.constructor | src/framework/research-engine.ts:131-136 | a fresh entry has the URL and host, time 0 and status 'failed' |
| ResearchEngine.ResearchRun.constructor | src/framework/research-engine.ts:123-124 | a run starts with no records and no log |
| ResearchEngine.ResearchRun.RunTask | src/framework/research-engine.ts:130-184 | an unparsable URL throws before the handler and changes nothing; otherwise exactly its log line is appended, and its record on success |
| ResearchEngine.RunLogOnePerTask | src/framework/research-engine.ts:128-186 | one log line per task, in task order |
| ResearchEngine.RunRecordsAreSuccesses | src/framework/research-engine.ts:160-172 | the records are as many as the 'success' lines, and each carries the URL of some search result as 出典URL |
| ResearchEngine.RunRecordsCount | src/framework/research-engine.ts:160-172 | the number of records equals the number of 'success' lines |
| ResearchEngine.RunRecordsUrls | src/framework/research-engine.ts:167-170 | every record's 出典URL is the URL of one of the search results |
| ResearchEngine.SearchAndExtract | src/framework/research-engine.ts:107-191 | when every URL parses: the records and the log of all search results; otherwise the run stops at the first unparsable URL and keeps the log of the results before it |
| ResearchEngine.NotAllParse | src/framework/research-engine.ts:133 | a single unparsable URL makes the run throw |
| ResearchEngine.RunStep | src/framework/research-engine.ts:128-186 | one more task extends the records and the log by that task's contribution |
| ResearchEngine.DeduplicatedProperties | src/framework/research-engine.ts:203-214 | with a key field configured: a subsequence whose records all have a non-empty key, keys pairwise distinct, every non-empty input key kept |
| ResearchEngine.DeduplicatedIdempotent | src/framework/research-engine.ts:196-215 | de-duplicating twice equals de-duplicating once |
| ResearchEngine.DeduplicateRecords | src/framework/research-engine.ts:196-215 | an empty key setting returns the input unchanged; otherwise records with a missing or empty key are dropped and the first record per key is kept |
| ResearchEngine.AssignIds | src/framework/research-engine.ts:220-225 | dense 1-based, zero-padded IDs in list order; every other field unchanged |
| ResearchEngine.AssignIdsDistinct | src/framework/research-engine.ts:220-225 | the IDs are pairwise distinct |
| ResearchEngine.Finalize | src/framework/research-engine.ts:65-75 | an empty extraction aborts before de-duplication; otherwise the de-duplicated, numbered records |
| ResearchEngine.FinalizeCanBeEmpty | src/framework/research-engine.ts:67-75 | the abort checks the extracted list, so de-duplication can still leave no records |
| Retry.DefaultRetryOnCases | src/utils/retry.ts:12-23 | with a response, retry iff status ≥ 500 or 429, whatever the code; without one, iff the code is ECONNRESET, ETIMEDOUT or ENOTFOUND |
| Retry.Resolve | src/utils/retry.ts:32-38 | omitted options default to 3 attempts, 1000 ms, 10000 ms, factor 2 and the default predicate |
| Retry.Delay | src/utils/retry.ts:54 | the delay after attempt a is min(initialDelay·factor^a, maxDelay) |
| Retry.RetryFromShape | src/utils/retry.ts:42-65 | at most the remaining attempts are made, with one delay fewer than calls; every call before the last failed retryably; the last either succeeded and is returned, or failed on the final attempt or non-retryably and is thrown |
| Retry.RetryLoop | src/utils/retry.ts:42-65 | the counted loop produces the result, call count and delays of the recursive retry specification |
| Retry.RetryWith | src/utils/retry.ts:28-66 | retry with defaulted options: at most maxAttempts calls, one sleep fewer than calls, and the undefined lastError thrown without a call when maxAttempts ≤ 0 |
| Retry.RetryCounts | src/utils/retry.ts:42-62 | with maxAttempts ≤ 0 nothing is called; otherwise 1..maxAttempts calls, one sleep fewer than calls, and the a-th sleep is Delay(a) |
| Retry.RetryReturnsFirstSuccess | src/utils/retry.ts:42-44 | the first success after retryable failures is returned, with no further call |
| Retry.RetryNonRetryable | src/utils/retry.ts:49-51 | a non-retryable first error is rethrown after one call, without sleeping |
| Retry.RetryExhausted | src/utils/retry.ts:49 | when every attempt fails retryably, the last attempt's error is thrown after maxAttempts calls |
| Retry.RetryDefaultSchedule | src/utils/retry.ts:32-54 | with the defaults and three retryable failures: three calls and sleeps of 1000 then 2000 ms |
| Search.FirstIncluded | src/modules/search.ts:134-139 | the first priority entry that is a substring of the host |
| Search.ScoreByDomain | src/modules/search.ts:128-145 | within 0..|priority|; positive iff some entry is a substring of the host, and then length − i for the first such i; 0 when the URL does not parse |
| Search.EarlierPriorityScoresHigher | src/modules/search.ts:134-138 | a URL first matched by an earlier entry scores strictly higher than one first matched by a later entry or by none |
| Search.Renormalized | src/modules/search.ts:180-191 | each result carries its normalized URL, everything else kept |
| Search.MergedProperties | src/modules/search.ts:177-193 | no merged URL is blocked; merged URLs are distinct; each merged entry is the first occurrence of its normalized URL in flattened order; every unblocked normalized URL survives |
| Search.ValuesInOrder | src/modules/search.ts:196 | `Array.from(map.values())` lists the values in insertion order |
| Search.MergeResults | src/modules/search.ts:177-193 | the Map-filling loop computes the first-seen merge of unblocked normalized results |
| Search.InsertByScorePermutes | src/modules/search.ts:196-200 | inserting adds exactly one element |
| Search.InsertByScoreSorted | src/modules/search.ts:196-200 | inserting into a non-increasing list keeps it non-increasing |
| Search.InsertByScoreBounded | src/modules/search.ts:196-200 | inserting keeps every score within a common bound |
| Search.InsertByScoreFilter | src/modules/search.ts:196-200 | for each score, the inserted element goes before all elements with that score |
| Search.SortByScoreSorted | src/modules/search.ts:196-200 | the sort result is non-increasing in score and a permutation of its input |
| Search.SortByScoreStable | src/modules/search.ts:196-200 | for every score, the results with that score keep their input order |
| Search.MergeAndSort | src/modules/search.ts:173-204 | the output is the merged list sorted by non-increasing score, a permutation of it, and stable within each score |
| Fetch.FirstNonEmpty | src/modules/fetch.ts:86-97 | the first non-empty candidate |
| Fetch.ExtractTitleSpec | src/modules/fetch.ts:86-98 | og:title, then meta title, then the first h1, then the title tag: the first non-empty raw value decides and is trimmed |
| Fetch.DateFrom | src/modules/fetch.ts:105-121 | the first non-empty candidate is the one normalized; none gives no date |
| Fetch.DatePrecedence | src/modules/fetch.ts:103-138 | the published date prefers article:published_time and falls back to time[datetime] only after all four meta tags; the updated date never reads `<time>` and is absent without its three meta tags |
| Fetch.DetectLangRegionSpec | src/modules/fetch.ts:161-196 | one of the five language/region pairs; 'JP' iff html lang starts with 'ja', or the TLD is 'jp', or og:locale starts with 'ja' when no other TLD rule fired; 'Global' iff no rule applies |
| Fetch.CleanTextIsTrimOfCollapsed | src/modules/fetch.ts:225-232 | the newline pass never changes anything, so cleanText is trimming the space-collapsed text |
| Fetch.TrimCollapsed | src/modules/fetch.ts:228-231 | trimming keeps a collapsed text collapsed |
| Fetch.CollapsedHasNoNewline | src/modules/fetch.ts:228-229 | a text with no two adjacent white-space characters and only ' ' as white space has no newline |
| Fetch.CleanTextShape | src/modules/fetch.ts:225-232 | no white space at either end, no newline, no two adjacent white-space characters |
| Fetch.CleanTextIdempotent | src/modules/fetch.ts:225-232 | cleaning twice equals cleaning once |
| Fetch.FirstLongCandidate | src/modules/fetch.ts:206-216 | the first selector, in order article, main, .content, .post, .entry, body, whose element exists with more than 400 characters of text |
| Fetch.MainContentSource | src/modules/fetch.ts:201-220 | the cleaned text of the first long candidate, else the cleaned body text |
| Fetch.ExtractMainContent | src/modules/fetch.ts:201-220 | the candidate loop returns the main content |
| Fetch.ContentGate | src/modules/fetch.ts:57-63 | none iff the content is shorter than 400; otherwise its first min(length, 6000) characters |
| Fetch.ContentGateExamples | src/modules/fetch.ts:57-63 | 399 characters → none, 400 → all of them, 7000 → 6000 |
| Fetch.FetchResultGates | src/modules/fetch.ts:10-81 | a thrown fetch, a non-HTML content type, short content or an unparsable URL give null; a result has the URL, its host, the title and 400..6000 characters of the main content |
| Fetch.FetchAndExtract | src/modules/fetch.ts:10-81 | the page is fetched with 3 attempts and the default delays, and then gated |
| LlmExtractClaude.FirstClose | src/modules/llm-extract-claude.ts:67 | the first place where the lazy capture can end at a closing fence |
| LlmExtractClaude.FencePayload | src/modules/llm-extract-claude.ts:67-68 | without a ```json fence the whole text is parsed; the payload is never longer than the text |
| LlmExtractClaude.FencePayloadRoundTrip | src/modules/llm-extract-claude.ts:67-68 | a body wrapped in a ```json fence is recovered exactly |
| LlmExtractClaude.RequiredFieldsAreColumns | src/modules/llm-extract-claude.ts:108-129 | the 20 required fields are the record's columns, in order |
| LlmExtractClaude.FirstMissing | src/modules/llm-extract-claude.ts:131-135 | the first required field that is absent |
| LlmExtractClaude.ValidateFields | src/modules/llm-extract-claude.ts:131-135 | no error iff every field is present; otherwise the message names the first absent one |
| LlmExtractClaude.ValidateRecordSpec | src/modules/llm-extract-claude.ts:107-136 | validation fails iff one of the 20 keys is absent, and names the first; present but empty values pass |
| LlmExtractClaude.AnyEstimated | src/modules/llm-extract-claude.ts:158-160 | true iff some listed field is a string starting with '推定:' |
| LlmExtractClaude.CheckForEstimationSpec | src/modules/llm-extract-claude.ts:141-161 | estimation is detected iff one of the 13 inspected fields is a string starting with '推定:' |
| LlmExtractClaude.EstimationIgnores | src/modules/llm-extract-claude.ts:142-156 | changing an uninspected field never changes the verdict |
| LlmExtractClaude.UninspectedFields | src/modules/llm-extract-claude.ts:142-156 | タイトル, 業種, ID, 出典URL, 情報の種類, 公開日/更新日 and 重複判定キー are not inspected |
| LlmExtractClaude.ApplyEstimation | src/modules/llm-extract-claude.ts:76-80 | on estimation 情報の種類 becomes '推定'; otherwise the record is unchanged; no other field changes |
| LlmExtractClaude.ApplyEstimationStable | src/modules/llm-extract-claude.ts:74-80 | the override keeps a valid record valid, keeps the verdict, and is idempotent |
| LlmExtractClaude.AttemptResultValid | src/modules/llm-extract-claude.ts:59-84 | an attempt's record is a text reply, parsed from its payload, valid, and overridden when estimated |
| LlmExtractClaude.ExtractRunProperties | src/modules/llm-extract-claude.ts:12-101 | a missing or empty API key throws with no call; otherwise at most 2 calls with one 2000 ms wait between them, the first valid record returned, null only after two failures |
| LlmExtractClaude.AttemptsRunProperties | src/modules/llm-extract-claude.ts:45-97 | the two attempts keep those promises for any message |
| LlmExtractClaude.AttemptLoop | src/modules/llm-extract-claude.ts:43-97 | the attempt loop computes the two-attempt run |
| LlmExtractClaude.ExtractWithLlm | src/modules/llm-extract-claude.ts:12-102 | the key check, then the attempts with a prompt whose info type comes from the host; the initialInfoType argument is never read |
| LlmProviders.ProviderName | src/framework/llm-providers.ts:167 | the argument, else LLM_PROVIDER, else 'openai'; empty values fall through |
| LlmProviders.Create | src/framework/llm-providers.ts:166-181 | Anthropic iff the lower-cased name is 'anthropic' or 'claude'; Ollama iff it is 'ollama'; OpenAI for every other name |
| LlmProviders.CreateDefault | src/framework/llm-providers.ts:167-179 | without a name, OpenAI is chosen |
| LlmProviders.CreateIgnoresCaseAndEnv | src/framework/llm-providers.ts:167-169 | a non-empty argument decides, regardless of case and environment |
| LlmProviders.CreateClaude | src/framework/llm-providers.ts:169-172 | 'Claude' and 'CLAUDE' select Anthropic |
| LlmProviders.LastIndexOf | src/framework/llm-providers.ts:104 | the last occurrence of a character |
| LlmProviders.FenceMatchSpec | src/framework/llm-providers.ts:104 | the fenced pattern matches iff an opening fence is followed by a closing one |
| LlmProviders.FenceMatchIs | src/framework/llm-providers.ts:104 | the fenced match spans from the first opening fence to the first closing fence after it |
| LlmProviders.FenceMatchEndsWithFence | src/framework/llm-providers.ts:104 | a fenced match spans at least both fences |
| LlmProviders.BraceMatch | src/framework/llm-providers.ts:104 | the greedy span runs from the first '{' to the last '}', and exists iff some '{' precedes some '}' |
| LlmProviders.JsonPayload | src/framework/llm-providers.ts:104-109 | a payload that is returned is never empty |
| LlmProviders.JsonPayloadNone | src/framework/llm-providers.ts:104-107 | null iff there is no fenced block and no '{' before a '}' |
| LlmProviders.FencedPayload | src/framework/llm-providers.ts:104-109 | the inner text of the first ```json fence, with surrounding white space skipped |
| LlmProviders.EmptyFencePayload | src/framework/llm-providers.ts:109 | an empty capture falls back to the whole match |
| LlmProviders.BracePayload | src/framework/llm-providers.ts:104-109 | without a fence, the first-'{'-to-last-'}' span |
| JsString.TrimPadded | src/framework/llm-providers.ts:104 | the white space around the fenced text is exactly what trimming removes |
| PromptGenerator.GetSystemPromptShape | src/framework/prompt-generator.ts:11-13 | the system prompt trimmed: no white space at either end, never longer, an already trimmed text unchanged |
| PromptGenerator.GetSystemPromptIdempotent | src/framework/prompt-generator.ts:11-13 | trimming the system prompt twice equals trimming it once |
| JsString.SkipSpaces | src/framework/prompt-generator.ts:39 | the greedy `\s*` stops at the first non-space character |
| PromptGenerator.PlaceholderLen | src/framework/prompt-generator.ts:39 | a placeholder match lies within the text and spans at least the key with its braces |
| PromptGenerator.ReplaceAllPlaceholder | src/framework/prompt-generator.ts:39-40 | `{{ key }}` with any white space inside the braces becomes the value, and the scan goes on after it |
| PromptGenerator.PlaceholderMatchIsKey | src/framework/prompt-generator.ts:39 | a brace-free `{{inner}}` matches the pattern for a key only when its inner text, trimmed, is the key |
| PromptGenerator.MatchAtFrontIsKey | src/framework/prompt-generator.ts:39 | a match at the front of a text whose first closing brace ends the inner text forces the trimmed inner text to be the key |
| PromptGenerator.ReplaceAllOtherPlaceholder | src/framework/prompt-generator.ts:39-40 | a brace-free placeholder whose trimmed inner text is not the key (spaced names and names that merely start with the key included) survives the pass, and the scan goes on after it |
| PromptGenerator.ReplaceAllKeepsOtherPlaceholder | src/framework/prompt-generator.ts:39-40 | the same after any brace-free prefix: prefix and placeholder are kept, only the rest is rewritten |
| PromptGenerator.SubstituteAllOtherPlaceholder | src/framework/prompt-generator.ts:38-41 | a placeholder naming none of the keys survives every pass of the substitution |
| PromptGenerator.VariableNamesPlain | src/framework/prompt-generator.ts:23-33 | the seven variable names are non-empty, brace-free and have no white space at either end |
| PromptGenerator.UnknownPlaceholderSurvives | src/framework/prompt-generator.ts:23-41 | a placeholder whose trimmed name is none of the seven variables is left in the prompt, and the text after it is substituted as usual |
| PromptGenerator.Lookup | src/framework/prompt-generator.ts:38-41 | the value of the first variable with the given name; none exactly when no variable has that name |
| PromptGenerator.SubstituteAllKeepsPlainPrefix | src/framework/prompt-generator.ts:38-41 | text before the first '{' comes through every pass unchanged |
| PromptGenerator.ReplaceAllKnownAtFront | src/framework/prompt-generator.ts:39-40 | a placeholder whose trimmed inner text is the key, white space inside included, becomes the value in that key's pass, and the scan goes on after it |
| PromptGenerator.ReplaceAllKnownPlaceholder | src/framework/prompt-generator.ts:39-40 | the same behind brace-free text, which is kept |
| PromptGenerator.SubstituteAllKnownPlaceholder | src/framework/prompt-generator.ts:38-41 | across all passes, a brace-free placeholder naming a variable becomes the first such variable's value when that value has no '{'; the text after it is substituted as usual |
| PromptGenerator.SegmentStep | src/framework/prompt-generator.ts:38-41 | the passes turn one brace-free literal or placeholder into what it should become, and go on with the text after it |
| PromptGenerator.SubstituteSegments | src/framework/prompt-generator.ts:38-41 | a template of brace-free literals and placeholders becomes the literals, each known placeholder's value and each unknown placeholder unchanged |
| PromptGenerator.VariableNamesDistinct | src/framework/prompt-generator.ts:25-33 | the seven variable names are pairwise different |
| PromptGenerator.LookupFirst | src/framework/prompt-generator.ts:38-41 | a name first occurring at position i looks up the value at i |
| PromptGenerator.LookupVariables | src/framework/prompt-generator.ts:25-33 | each of the seven names looks up its own variable's value |
| PromptGenerator.UserPromptFilled | src/framework/prompt-generator.ts:23-43 | with no '{' in any value, every `{{ name }}` of the seven variables in the template becomes that variable's value and every other placeholder stays; `GenerateUserPrompt` returns the trim of this |
| PromptGenerator.ReplaceAllKeepsPlainPrefix | src/framework/prompt-generator.ts:40 | text before any '{' survives a pass |
| PromptGenerator.ReplaceAllPlain | src/framework/prompt-generator.ts:40 | text without '{' survives a pass unchanged |
| PromptGenerator.Variables | src/framework/prompt-generator.ts:23-33 | seven variables in the fixed order url…content; url and content verbatim; info_type '一次情報' iff primary and '二次情報' iff secondary; missing or empty metadata shown as '不明' |
| PromptGenerator.SubstituteAllPlain | src/framework/prompt-generator.ts:38-41 | a template without placeholders passes every pass unchanged |
| PromptGenerator.GenerateUserPrompt | src/framework/prompt-generator.ts:18-44 | the passes apply in order, each to the previous output, and the result is trimmed; a template without '{' is only trimmed |
| PromptGenerator.GenerateSchemaExample | src/framework/prompt-generator.ts:49-57 | every field name maps to the empty string, there are no other keys, and the keys come in first-seen order without repeats |
| PromptGenerator.SchemaDone | src/framework/prompt-generator.ts:49-57 | once every field is visited, the keys are exactly the field names, in first-seen order, without repeats |
| ExtractionPrompt.OrUnknown | src/prompts/extraction-prompt.ts:92-95 | a missing or empty value renders as '不明', otherwise as itself |
| ExtractionPrompt.UrlLine | src/prompts/extraction-prompt.ts:83-86 | after the fixed introduction ending in '## URL\n', the URL appears verbatim and is followed by a line break |
| ExtractionPrompt.MetadataStartsLine | src/prompts/extraction-prompt.ts:86-87 | the metadata block begins with a line break |
| ExtractionPrompt.ContentBlock | src/prompts/extraction-prompt.ts:83-103 | the header ends with the 本文 heading, the content follows verbatim, and only the fixed closing text comes after it |
| TemplateLoader.Get | src/framework/template-loader.ts:40-62 | a property read gives an object's own property, and undefined on other values (`length` aside) |
| TemplateLoader.Elements | src/framework/template-loader.ts:65 | `for-of` iterates an array's items and a string's characters; other values are not iterable |
| TemplateLoader.FirstBadFieldNone | src/framework/template-loader.ts:65-69 | no field error iff every field has a truthy name and type |
| TemplateLoader.FirstBadFieldSome | src/framework/template-loader.ts:65-69 | the reported field is the first without a name or type |
| TemplateLoader.FirstBadFieldAt | src/framework/template-loader.ts:65-69 | when field j is the first without a name or type, it is the one reported |
| TemplateLoader.NestedTruthy | src/framework/template-loader.ts:48-60 | a truthy nested property implies a truthy parent object |
| TemplateLoader.StringFieldsRejected | src/framework/template-loader.ts:65-69 | a non-empty string given as `fields` fails on its first character |
| TemplateLoader.ValidateAccepts | src/framework/template-loader.ts:39-70 | accepted iff name, version, search.queries, system_prompt and user_prompt_template are truthy, fields is a non-empty list, and every field has a name and a type |
| TemplateLoader.ValidateOrder | src/framework/template-loader.ts:40-50 | checks run in order and the first failure's message is reported; an empty version counts as missing |
| TemplateLoader.ValidateReportsFirstBadField | src/framework/template-loader.ts:65-69 | once the guards pass, the first bad field is what is reported |
| TemplateLoader.LoadTemplate | src/framework/template-loader.ts:16-34 | a missing file throws 'Template file not found: …' unwrapped; every later error is wrapped with 'Failed to load template: ' |
| TemplateLoader.LoadTemplateSucceeds | src/framework/template-loader.ts:16-34 | loading succeeds iff the file exists, reads, parses and validates, and it returns the parsed template |
| Output.ChunksFlatten | src/modules/output.ts:363-369 | the concatenated chunks equal the input |
| Output.ChunksSizes | src/modules/output.ts:363-369 | every chunk but the last has exactly chunkSize elements, the last has 1..chunkSize, and empty input gives no chunks |
| Output.ChunksCount | src/modules/output.ts:363-369 | the number of chunks is the length divided by chunkSize, rounded up |
| Output.ChunksShape | src/modules/output.ts:363-369 | the chunks concatenate to the input, all full but the last, none iff the input is empty, and (n−1)·size < length ≤ n·size |
| Output.ChunkArray | src/modules/output.ts:363-369 | the stepped slicing loop yields chunks that concatenate to the input, all full but the last, with none for empty input |
| Output.ChunkAt | src/modules/output.ts:365-366 | chunk i is the slice from i·size, cut at the end |
| Output.EscapeMdSingleLine | src/modules/output.ts:352-358 | falsy input gives ''; the result has no newline and no CR |
| Output.EscapeMdAppend | src/modules/output.ts:354-357 | escaping works character by character: it distributes over concatenation |
| Output.EscapeMdChar | src/modules/output.ts:354-357 | '\|' becomes '\\\|', '\n' becomes ' ', '\r' is removed, and every other character is kept |
| Output.EscapeMdPipesEscaped | src/modules/output.ts:355 | every '\|' of the result is preceded by a backslash |
| Output.CountKeys | src/modules/output.ts:278-317 | the counting loop counts every value by its multiplicity, keys in first-seen order, and the counts sum to the number of values |
| Output.TalliedDone | src/modules/output.ts:278-317 | once every value is visited, the keys come in first-seen order, the count of each key is its multiplicity and the counts sum to the number of values |
| Output.CountByIndustry | src/modules/output.ts:278-287 | each industry present gets the number of records holding it, and the counts sum to records.length |
| Output.CountByInfoType | src/modules/output.ts:308-317 | each information type present gets the number of records holding it, and the counts sum to records.length |
| Output.TriggerHead | src/modules/output.ts:296 | the trimmed first '/'-segment, without '/' |
| Output.TriggerHeads | src/modules/output.ts:294-296 | one head per record, in record order |
| Output.TriggerKeys | src/modules/output.ts:296-299 | only non-empty heads are counted, and every non-empty head is |
| Output.CountByTrigger | src/modules/output.ts:292-303 | the non-empty trimmed heads are counted by multiplicity, and the counts sum to at most records.length |
| Output.RowCellsByName | src/modules/output.ts:189-210 | one cell per column in header order; ID, 業種, 実装難易度, 出典URL, 情報の種類, 公開日/更新日 and 重複判定キー raw, every other column escaped |
| Output.EscapedCells | src/modules/output.ts:189-210 | escaped cells have no line break and no unescaped '\|' |
| Output.RowCellsSingleLine | src/modules/output.ts:189-210 | a record whose raw fields have no newline gives cells without a newline |
| Output.RowIsOneLine | src/modules/output.ts:212 | a row of single-line cells is exactly one line |
| Output.HeaderRowsLines | src/modules/output.ts:185-186 | the header and the separator are two lines |
| Output.TableLines | src/modules/output.ts:188-213 | each record adds exactly one line |
| Output.MarkdownTableLines | src/modules/output.ts:161-215 | a table of records with single-line raw fields has header, separator and one line per record |
| Output.GenerateMarkdownTable | src/modules/output.ts:161-215 | the append loop builds the header rows followed by one row per record, in order |
| Output.AppendRows | src/modules/output.ts:188-213 | the loop appends the records' rows in order |
| Output.WriteSections | src/modules/output.ts:26-39 | the section loop writes the sections of all chunks, in order |
| Output.SectionLayout | src/modules/output.ts:23-39 | section i holds records i·50 up to the next 50, opens with '## Part i+1 (n件)', and is followed by the later sections |
| Output.SectionsPrefix | src/modules/output.ts:26-39 | the first n sections are a prefix of the document body |
| Output.OutputMarkdownWithCsv | src/modules/output.ts:17-43 | the document is the title followed by one section per 50-record chunk |
| Output.FocusRecordsExact | src/modules/output.ts:133-137 | exactly the records whose 業種 is 不動産, ホテル, 飲食 or ナイト, in order, with their multiplicities |
| Output.OutputFocusIndustries | src/modules/output.ts:129-142 | the focus document is the Markdown document of the filtered records |

## Left out

- Network, DOM and SDK calls are inputs, not models:
  - the axios GETs;
  - the cheerio selectors, and the node removal before main-content selection;
  - the DuckDuckGo HTML scraping, `isValidUrl` and the OpenAI, Anthropic and Ollama request code.
  - A fetched page is a record of the attribute values and element texts the code reads. A model reply is a text block or another block.
- URL parsing is a function parameter with a "does not parse" result. This covers `new URL(...)`, its hostname, `normalizeUrl` and therefore the host part of `extractDomain`.
- `normalizeDate` is a parameter. It depends on the JavaScript `Date` parser and the local time zone.
- `JSON.parse` is a parameter, and so are the YAML loader, the path join, `existsSync`/`readFileSync` and the `JSON.stringify` rendering of a bad field.
- The `retry` loop's `sleep` and the 2000 ms wait in the extraction loop are recorded as requested delays rather than performed. `withTimeout` is left out: it is a timer race.
- `pLimit` and `Promise.all` fan-out are not modelled. Tasks run one at a time, in completion order. Interleavings, and the effect of a rejected task on the ones still running, are not modelled.
- Floating-point code is left out: the ROI score and top-20 ranking, the percentage `toFixed`, the 80% target warning and the elapsed seconds. The elapsed-time value is an input of each task.
- The file writes, `appendLog`, `ensureOutputDir`, `outputResults`' format dispatch, JSON output, the csv-stringify call and ConfigLoader's cached file reads are left out. The CSV text of a chunk is a parameter, and configuration (vocabulary, mappings, domain lists) is passed in.
- Console logging, the command-line programs, `createFromTemplate`, `resolveTemplatePath`, `listTemplates` and the thin `LLMExtractor` wrapper are not part of this model.
- Strings are sequences of UTF-16 code units. Characters outside the Basic Multilingual Plane count 1 rather than 2. No literal in the model is outside it.
- Lower: `toLowerCase` is modelled on ASCII letters only. JavaScript also lowers other scripts, and maps the Kelvin sign to 'k' and 'İ' to two code units, which would change the dedup key and the synonym and provider matching for such input.
- ParseInt: `parseInt(s, 10)` returns a negative zero for "-0"; the model gives 0, which normalizes to "1" either way.
- CountKeys, CountByIndustry, CountByInfoType, CountByTrigger: the counts are listed in first-insertion order. JavaScript lists integer-like keys first, in numeric order. A key named `__proto__` is not treated specially. The counting object is a plain `{}`, so for a key inherited from `Object.prototype` (`constructor`, `toString`, `valueOf`, `hasOwnProperty`, `isPrototypeOf`, `propertyIsEnumerable`, `toLocaleString`) the expression `count[k] || 0` reads an inherited function and the stored "count" is a string such as `function Object() { [native code] }1`. The model counts such keys like any other, so its multiplicity contract matches the source only for keys outside these names and `__proto__`.
- GenerateSchemaExample: the keys are listed in first-set order. A JavaScript object lists integer-like keys first and ignores an assignment to `__proto__`.
- GenericRecord: record values are strings. In the source a record is `Record<string, any>` from `JSON.parse`, which the model does not capture in three places. A `null`, `0` or `false` value of 情報の種類 or 公開日/更新日 is logged as 'unknown' or '' (src/framework/research-engine.ts:173-174). The de-duplication test `key && !seen.has(key)` drops a `0`, `null` or `false` key and keeps the number 1 apart from the string "1" (src/framework/research-engine.ts:208). A reply that parses to a bare string or number throws a TypeError at the 出典URL assignment (src/framework/research-engine.ts:168). The Claude extractor's record, by contrast, keeps a value as a string or as another JSON value, because its estimation check tests `typeof field === 'string'`.
- RetryOptions: maxAttempts is an integer and the delays and factor are natural numbers. Fractional or negative JavaScript numbers, and the floating point of `Math.pow`, are outside the model. Every caller in the repository passes integers.
- GenerateUserPrompt: replacement values are inserted literally. `String.prototype.replace` would interpret `$&`, `$1` and `$$` inside a value.
- UserPromptFilled: it describes templates whose values hold no '{'. A value that itself contains a later variable's placeholder (a page text holding `{{content}}`, say) is rewritten again by that later pass, in the source as in `SubstituteAll`. The lemma does not describe the outcome of that case.
- ChunkArray: a chunk size of 0 is excluded, because the loop never terminates on one. The pipeline always passes 50.
- LogEntry and ResearchRun: no 'duplicate' entry is ever appended, because the de-duplications only write to the console.
- ExtractWithLlm: the outer error handler only guards the configuration read, which is an input here, so its `null` path is not modelled separately.
