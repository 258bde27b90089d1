/** The merge stage of the web search: domain scoring by a priority list,
    URL de-duplication with a blocklist, and the stable sort by score. The
    search back end, URL normalization and host-name parsing are
    parameters. */
module Search {
  import opened Wrappers
  import opened JsString
  import opened Seqs
  import opened FirstSeen
  import opened Schema

  // ---------------------------------------------------------------------
  // Domain scoring
  // ---------------------------------------------------------------------

  /** The first index at or after `from` whose priority entry occurs in
      `host`. */
  function FirstIncluded(host: string, priority: seq<string>, from: nat): (r: Option<nat>)
    ensures r.Some? ==> from <= r.value < |priority| && Includes(host, priority[r.value])
    ensures r.Some? ==> forall j :: from <= j < r.value ==> !Includes(host, priority[j])
    ensures r.None? ==> forall j :: from <= j < |priority| ==> !Includes(host, priority[j])
    decreases |priority| - from
  {
    if from >= |priority| then None
    else if Includes(host, priority[from]) then Some(from)
    else FirstIncluded(host, priority, from + 1)
  }

  /** The score of a URL: with `i` the first priority entry its host
      contains, `|priority| - i`; 0 when no entry matches or the URL does not
      parse (`hostOf` gives `None`). */
  function ScoreByDomain(url: string, priority: seq<string>, hostOf: string -> Option<string>): (r: nat)
    ensures r <= |priority|
    ensures hostOf(url).None? ==> r == 0
    ensures hostOf(url).Some? ==>
      (r > 0 <==> exists i :: 0 <= i < |priority| && Includes(hostOf(url).value, priority[i]))
    ensures r > 0 ==> hostOf(url).Some? && Includes(hostOf(url).value, priority[|priority| - r])
    ensures r > 0 ==> forall j :: 0 <= j < |priority| - r ==> !Includes(hostOf(url).value, priority[j])
  {
    match hostOf(url)
    case None => 0
    case Some(host) =>
      match FirstIncluded(host, priority, 0)
      case None => 0
      case Some(i) => |priority| - i
  }

  /** A URL whose first matching entry comes earlier in the priority list
      scores strictly higher than one whose first match comes later, and
      any match scores higher than none. */
  lemma EarlierPriorityScoresHigher(u1: string, u2: string, priority: seq<string>, hostOf: string -> Option<string>, i: nat, j: nat)
    requires hostOf(u1).Some? && i < |priority| && Includes(hostOf(u1).value, priority[i])
    requires forall k :: 0 <= k < i ==> !Includes(hostOf(u1).value, priority[k])
    requires j < |priority| && i < j
    requires hostOf(u2).Some? ==> forall k :: 0 <= k < j ==> !Includes(hostOf(u2).value, priority[k])
    ensures ScoreByDomain(u1, priority, hostOf) == |priority| - i
    ensures ScoreByDomain(u1, priority, hostOf) > ScoreByDomain(u2, priority, hostOf)
  {
    var s1 := ScoreByDomain(u1, priority, hostOf);
    var s2 := ScoreByDomain(u2, priority, hostOf);
    if s2 > 0 {
      assert |priority| - s2 >= j;
    }
  }

  /** The scoring function the sort compares by. */
  function ScoreOf(priority: seq<string>, hostOf: string -> Option<string>): SearchResult -> nat {
    (r: SearchResult) => ScoreByDomain(r.url, priority, hostOf)
  }

  // ---------------------------------------------------------------------
  // Merge: normalize, block, keep the first result per URL
  // ---------------------------------------------------------------------

  /** Some blocklist entry occurs in the URL. */
  predicate IsBlocked(url: string, blocked: seq<string>) {
    exists i :: 0 <= i < |blocked| && Includes(url, blocked[i])
  }

  /** Each result with its URL replaced by the normalized one. */
  function Renormalized(flat: seq<SearchResult>, normalizeUrl: string -> string): (r: seq<SearchResult>)
    ensures |r| == |flat|
    ensures forall i :: 0 <= i < |r| ==> r[i] == flat[i].(url := normalizeUrl(flat[i].url))
  {
    seq(|flat|, i requires 0 <= i < |flat| => flat[i].(url := normalizeUrl(flat[i].url)))
  }

  /** A renormalized result is keyed by its URL unless that URL is blocked. */
  function MergeKey(blocked: seq<string>): SearchResult -> Option<string> {
    (r: SearchResult) => if IsBlocked(r.url, blocked) then None else Some(r.url)
  }

  /** The merged results in first-seen order. */
  function Merged(flat: seq<SearchResult>, normalizeUrl: string -> string, blocked: seq<string>): seq<SearchResult> {
    KeepFirst(Renormalized(flat, normalizeUrl), MergeKey(blocked), {})
  }

  /** What the merge keeps: no blocked URL, no URL twice, every result is
      the first result of its normalized URL with that URL put in, and every
      unblocked normalized URL of the input is represented. */
  lemma MergedProperties(flat: seq<SearchResult>, normalizeUrl: string -> string, blocked: seq<string>)
    ensures forall m :: 0 <= m < |Merged(flat, normalizeUrl, blocked)| ==>
      !IsBlocked(Merged(flat, normalizeUrl, blocked)[m].url, blocked)
    ensures forall m, n :: 0 <= m < n < |Merged(flat, normalizeUrl, blocked)| ==>
      Merged(flat, normalizeUrl, blocked)[m].url != Merged(flat, normalizeUrl, blocked)[n].url
    ensures forall m :: 0 <= m < |Merged(flat, normalizeUrl, blocked)| ==>
      exists i :: (0 <= i < |flat| && Merged(flat, normalizeUrl, blocked)[m] == flat[i].(url := normalizeUrl(flat[i].url))
        && forall j :: 0 <= j < i ==> normalizeUrl(flat[j].url) != normalizeUrl(flat[i].url))
    ensures forall i :: 0 <= i < |flat| && !IsBlocked(normalizeUrl(flat[i].url), blocked) ==>
      exists m :: 0 <= m < |Merged(flat, normalizeUrl, blocked)| && Merged(flat, normalizeUrl, blocked)[m].url == normalizeUrl(flat[i].url)
  {
    var xs := Renormalized(flat, normalizeUrl);
    var key := MergeKey(blocked);
    var r := Merged(flat, normalizeUrl, blocked);
    KeepFirstKeys(xs, key, {});
    forall m, n | 0 <= m < n < |r| ensures r[m].url != r[n].url {
      assert key(r[m]) != key(r[n]);
    }
    forall m | 0 <= m < |r|
      ensures exists i :: (0 <= i < |flat| && r[m] == flat[i].(url := normalizeUrl(flat[i].url))
        && forall j :: 0 <= j < i ==> normalizeUrl(flat[j].url) != normalizeUrl(flat[i].url))
    {
      KeepFirstOnlyFirsts(xs, key, {}, m);
      var i :| 0 <= i < |xs| && xs[i] == r[m] && FirstOfKey(xs, i, key, {});
      forall j | 0 <= j < i ensures normalizeUrl(flat[j].url) != normalizeUrl(flat[i].url) {
        assert key(xs[j]) != key(xs[i]);
      }
    }
    forall i | 0 <= i < |flat| && !IsBlocked(normalizeUrl(flat[i].url), blocked)
      ensures exists m :: 0 <= m < |r| && r[m].url == normalizeUrl(flat[i].url)
    {
      assert key(xs[i]) == Some(normalizeUrl(flat[i].url));
      KeepFirstCoversKeys(xs, key, i);
      var m :| 0 <= m < |r| && key(r[m]) == key(xs[i]);
    }
  }

  /** The values of an insertion-ordered map: `order` lists the keys in the
      order they were first set. */
  function ValuesInOrder(order: seq<string>, table: map<string, SearchResult>): (vs: seq<SearchResult>)
    requires forall i :: 0 <= i < |order| ==> order[i] in table
    ensures |vs| == |order|
    ensures forall i :: 0 <= i < |order| ==> vs[i] == table[order[i]]
  {
    seq(|order|, i requires 0 <= i < |order| => table[order[i]])
  }

  /** One step of the merge loop: storing an unblocked, unseen result and
      skipping any other leaves the values plus the rest of the pass
      unchanged. */
  lemma MergeStep(order: seq<string>, table: map<string, SearchResult>, x: SearchResult, rest: seq<SearchResult>, blocked: seq<string>)
    requires forall i :: 0 <= i < |order| ==> order[i] in table
    ensures !IsBlocked(x.url, blocked) && x.url !in table ==>
      forall i :: 0 <= i < |order + [x.url]| ==> (order + [x.url])[i] in table[x.url := x]
    ensures !IsBlocked(x.url, blocked) && x.url !in table ==>
      ValuesInOrder(order + [x.url], table[x.url := x]) + KeepFirst(rest, MergeKey(blocked), table[x.url := x].Keys)
        == ValuesInOrder(order, table) + KeepFirst([x] + rest, MergeKey(blocked), table.Keys)
    ensures !(!IsBlocked(x.url, blocked) && x.url !in table) ==>
      ValuesInOrder(order, table) + KeepFirst(rest, MergeKey(blocked), table.Keys)
        == ValuesInOrder(order, table) + KeepFirst([x] + rest, MergeKey(blocked), table.Keys)
  {
    assert MergeKey(blocked)(x) == if IsBlocked(x.url, blocked) then None else Some(x.url);
    KeepFirstAppendStep(ValuesInOrder(order, table), x, rest, MergeKey(blocked), table.Keys);
    if !IsBlocked(x.url, blocked) && x.url !in table {
      assert table[x.url := x].Keys == table.Keys + {x.url};
      ValuesInOrderAppend(order, table, x.url, x);
    }
  }

  /** Setting a new key appends its value to the values in order. */
  lemma ValuesInOrderAppend(order: seq<string>, table: map<string, SearchResult>, k: string, v: SearchResult)
    requires forall i :: 0 <= i < |order| ==> order[i] in table
    requires k !in table
    ensures forall i :: 0 <= i < |order + [k]| ==> (order + [k])[i] in table[k := v]
    ensures ValuesInOrder(order + [k], table[k := v]) == ValuesInOrder(order, table) + [v]
  {
    var a := ValuesInOrder(order + [k], table[k := v]);
    var b := ValuesInOrder(order, table) + [v];
    forall i | 0 <= i < |a| ensures a[i] == b[i] {
      if i < |order| {
        assert (order + [k])[i] == order[i] && order[i] != k;
      }
    }
  }

  /** The merge loop: normalize every result's URL in flattened query order,
      skip blocked URLs and URLs already in the table, and store the result
      with its normalized URL. */
  method MergeResults(flat: seq<SearchResult>, normalizeUrl: string -> string, blocked: seq<string>)
    returns (merged: seq<SearchResult>)
    ensures merged == Merged(flat, normalizeUrl, blocked)
  {
    var xs := Renormalized(flat, normalizeUrl);
    var table: map<string, SearchResult> := map[];
    var order: seq<string> := [];
    var n := 0;
    assert ValuesInOrder(order, table) == [] && table.Keys == {};
    while n < |flat|
      invariant n <= |flat|
      invariant forall i :: 0 <= i < |order| ==> order[i] in table
      invariant ValuesInOrder(order, table) + KeepFirst(xs[n..], MergeKey(blocked), table.Keys) == Merged(flat, normalizeUrl, blocked)
    {
      var normalizedUrl := normalizeUrl(flat[n].url);
      var isBlocked := IsBlocked(normalizedUrl, blocked);
      assert xs[n] == flat[n].(url := normalizedUrl);
      MergeStep(order, table, xs[n], xs[n + 1..], blocked);
      assert xs[n..] == [xs[n]] + xs[n + 1..];
      if !isBlocked && normalizedUrl !in table {
        var entry := flat[n].(url := normalizedUrl);
        table := table[normalizedUrl := entry];
        order := order + [normalizedUrl];
      }
      n := n + 1;
    }
    assert xs[n..] == [];
    merged := ValuesInOrder(order, table);
    assert merged + [] == merged;
  }

  // ---------------------------------------------------------------------
  // Stable sort by descending score
  // ---------------------------------------------------------------------

  /** Inserts `x` before the first element scoring no higher than it. */
  function InsertByScore(x: SearchResult, ys: seq<SearchResult>, score: SearchResult -> nat): seq<SearchResult> {
    if ys == [] || score(ys[0]) <= score(x) then [x] + ys
    else [ys[0]] + InsertByScore(x, ys[1..], score)
  }

  /** A stable sort by non-increasing score (the comparator `b - a` under a
      stable `Array.prototype.sort`). */
  function SortByScore(xs: seq<SearchResult>, score: SearchResult -> nat): seq<SearchResult> {
    if xs == [] then [] else InsertByScore(xs[0], SortByScore(xs[1..], score), score)
  }

  predicate SortedByScore(s: seq<SearchResult>, score: SearchResult -> nat) {
    forall i, j :: 0 <= i < j < |s| ==> score(s[i]) >= score(s[j])
  }

  function HasScore(score: SearchResult -> nat, v: nat): SearchResult -> bool {
    x => score(x) == v
  }

  lemma {:induction false} InsertByScorePermutes(x: SearchResult, ys: seq<SearchResult>, score: SearchResult -> nat)
    ensures multiset(InsertByScore(x, ys, score)) == multiset(ys) + multiset{x}
  {
    if ys != [] && score(ys[0]) > score(x) {
      InsertByScorePermutes(x, ys[1..], score);
      assert ys == [ys[0]] + ys[1..];
    }
  }

  /** Inserting an element scored at most `b` into elements scored at most
      `b` keeps every score at most `b`. */
  lemma {:induction false} InsertByScoreBounded(x: SearchResult, ys: seq<SearchResult>, score: SearchResult -> nat, b: nat)
    requires score(x) <= b
    requires forall k :: 0 <= k < |ys| ==> score(ys[k]) <= b
    ensures forall k :: 0 <= k < |InsertByScore(x, ys, score)| ==> score(InsertByScore(x, ys, score)[k]) <= b
  {
    if ys != [] && score(ys[0]) > score(x) {
      InsertByScoreBounded(x, ys[1..], score, b);
      var rest := InsertByScore(x, ys[1..], score);
      assert InsertByScore(x, ys, score) == [ys[0]] + rest;
    }
  }

  lemma {:induction false} InsertByScoreSorted(x: SearchResult, ys: seq<SearchResult>, score: SearchResult -> nat)
    requires SortedByScore(ys, score)
    ensures SortedByScore(InsertByScore(x, ys, score), score)
  {
    if ys != [] && score(ys[0]) > score(x) {
      var rest := InsertByScore(x, ys[1..], score);
      InsertByScoreSorted(x, ys[1..], score);
      InsertByScoreBounded(x, ys[1..], score, score(ys[0]));
      var r := [ys[0]] + rest;
      assert InsertByScore(x, ys, score) == r;
      forall i, j | 0 <= i < j < |r| ensures score(r[i]) >= score(r[j]) {
        assert r[j] == rest[j - 1];
        if i > 0 {
          assert r[i] == rest[i - 1];
        }
      }
    }
  }

  /** The sort's output is sorted and a permutation of its input. */
  lemma {:induction false} SortByScoreSorted(xs: seq<SearchResult>, score: SearchResult -> nat)
    ensures SortedByScore(SortByScore(xs, score), score)
    ensures multiset(SortByScore(xs, score)) == multiset(xs)
  {
    if xs != [] {
      SortByScoreSorted(xs[1..], score);
      InsertByScoreSorted(xs[0], SortByScore(xs[1..], score), score);
      InsertByScorePermutes(xs[0], SortByScore(xs[1..], score), score);
      assert xs == [xs[0]] + xs[1..];
    }
  }

  lemma {:induction false} InsertByScoreFilter(x: SearchResult, ys: seq<SearchResult>, score: SearchResult -> nat, v: nat)
    ensures Filter(InsertByScore(x, ys, score), HasScore(score, v)) ==
      (if score(x) == v then [x] else []) + Filter(ys, HasScore(score, v))
  {
    if ys == [] || score(ys[0]) <= score(x) {
      assert ([x] + ys)[1..] == ys;
    } else {
      InsertByScoreFilter(x, ys[1..], score, v);
      assert ([ys[0]] + InsertByScore(x, ys[1..], score))[1..] == InsertByScore(x, ys[1..], score);
    }
  }

  /** Stability: the results of any one score appear in the output in the
      same order as in the input. */
  lemma {:induction false} SortByScoreStable(xs: seq<SearchResult>, score: SearchResult -> nat, v: nat)
    ensures Filter(SortByScore(xs, score), HasScore(score, v)) == Filter(xs, HasScore(score, v))
  {
    if xs != [] {
      SortByScoreStable(xs[1..], score, v);
      InsertByScoreFilter(xs[0], SortByScore(xs[1..], score), score, v);
    }
  }

  // ---------------------------------------------------------------------
  // The merge, block and sort stage of searchWeb
  // ---------------------------------------------------------------------

  /** Flattens the per-query result lists in query order, merges them and
      sorts the merged list by domain score. */
  method MergeAndSort(perQuery: seq<seq<SearchResult>>, normalizeUrl: string -> string, blocked: seq<string>,
                      priority: seq<string>, hostOf: string -> Option<string>)
    returns (sorted: seq<SearchResult>)
    ensures sorted == SortByScore(Merged(Flatten(perQuery), normalizeUrl, blocked), ScoreOf(priority, hostOf))
    ensures SortedByScore(sorted, ScoreOf(priority, hostOf))
    ensures multiset(sorted) == multiset(Merged(Flatten(perQuery), normalizeUrl, blocked))
    ensures forall v: nat :: (Filter(sorted, HasScore(ScoreOf(priority, hostOf), v)) ==
      Filter(Merged(Flatten(perQuery), normalizeUrl, blocked), HasScore(ScoreOf(priority, hostOf), v)))
  {
    var flat := Flatten(perQuery);
    var merged := MergeResults(flat, normalizeUrl, blocked);
    sorted := SortByScore(merged, ScoreOf(priority, hostOf));
    SortByScoreSorted(merged, ScoreOf(priority, hostOf));
    forall v: nat ensures Filter(sorted, HasScore(ScoreOf(priority, hostOf), v)) ==
      Filter(merged, HasScore(ScoreOf(priority, hostOf), v)) {
      SortByScoreStable(merged, ScoreOf(priority, hostOf), v);
    }
  }
}
