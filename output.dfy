/** The report helpers: chunking, Markdown escaping, group counts, the
    Markdown table, the per-chunk section layout and the focus-industry
    filter. File writes and the CSV library are not part of this model;
    the CSV text of a chunk is a parameter. */
module Output {
  import opened Wrappers
  import opened JsString
  import opened Seqs
  import opened FirstSeen
  import opened Schema

  // ---------------------------------------------------------------------
  // chunkArray
  // ---------------------------------------------------------------------

  /** The chunks of `xs`: slices of `size` elements, the last one shorter. */
  function Chunks<T>(xs: seq<T>, size: nat): seq<seq<T>>
    requires size > 0
    decreases |xs|
  {
    if xs == [] then []
    else if |xs| <= size then [xs]
    else [xs[..size]] + Chunks(xs[size..], size)
  }

  /** The chunks put back together are the input. */
  lemma {:induction false} ChunksFlatten<T>(xs: seq<T>, size: nat)
    requires size > 0
    ensures Flatten(Chunks(xs, size)) == xs
    decreases |xs|
  {
    if |xs| > size {
      ChunksFlatten(xs[size..], size);
      assert Chunks(xs, size)[1..] == Chunks(xs[size..], size);
      assert xs[..size] + xs[size..] == xs;
    }
  }

  /** Every chunk but the last is full, the last holds 1 to `size`
      elements, and there are none only for an empty input. */
  lemma {:induction false} ChunksSizes<T>(xs: seq<T>, size: nat)
    requires size > 0
    ensures forall i :: 0 <= i < |Chunks(xs, size)| - 1 ==> |Chunks(xs, size)[i]| == size
    ensures Chunks(xs, size) != [] ==> 1 <= |Chunks(xs, size)[|Chunks(xs, size)| - 1]| <= size
    ensures xs == [] <==> Chunks(xs, size) == []
    decreases |xs|
  {
    if |xs| > size {
      ChunksSizes(xs[size..], size);
      var c, rest := Chunks(xs, size), Chunks(xs[size..], size);
      assert c == [xs[..size]] + rest;
      forall i | 0 <= i < |c| - 1 ensures |c[i]| == size {
        if i > 0 {
          assert c[i] == rest[i - 1];
        }
      }
    }
  }

  /** There are ceil(|xs| / size) chunks: the full ones hold fewer than
      |xs| elements and all of them together at least |xs|. */
  lemma {:induction false} ChunksCount<T>(xs: seq<T>, size: nat)
    requires size > 0
    ensures xs != [] ==> (|Chunks(xs, size)| - 1) * size < |xs| <= |Chunks(xs, size)| * size
    decreases |xs|
  {
    if |xs| > size {
      ChunksCount(xs[size..], size);
      var n := |Chunks(xs[size..], size)|;
      assert |Chunks(xs, size)| == n + 1;
      assert (n + 1) * size == n * size + size;
      assert n * size == (n - 1) * size + size;
    }
  }

  /** The elements from index `i` on; nothing once `i` is past the end. */
  function Drop<T>(xs: seq<T>, i: nat): (r: seq<T>)
    ensures i <= |xs| ==> r == xs[i..]
    ensures i >= |xs| ==> r == []
  {
    if i <= |xs| then xs[i..] else []
  }

  /** chunkArray: slices of `chunkSize` elements taken at 0, chunkSize,
      2·chunkSize, and so on. A chunk size that is not positive makes the
      source loop forever, hence the precondition. */
  method ChunkArray<T>(items: seq<T>, chunkSize: nat) returns (chunks: seq<seq<T>>)
    requires chunkSize > 0
    ensures chunks == Chunks(items, chunkSize)
    ensures Flatten(chunks) == items
    ensures forall i :: 0 <= i < |chunks| - 1 ==> |chunks[i]| == chunkSize
    ensures chunks != [] ==> 1 <= |chunks[|chunks| - 1]| <= chunkSize
    ensures items == [] <==> chunks == []
    ensures items != [] ==> (|chunks| - 1) * chunkSize < |items| <= |chunks| * chunkSize
  {
    chunks := [];
    var i := 0;
    while i < |items|
      invariant i <= |items| + chunkSize
      invariant chunks + Chunks(Drop(items, i), chunkSize) == Chunks(items, chunkSize)
      decreases |items| - i
    {
      var end := if i + chunkSize <= |items| then i + chunkSize else |items|;
      ChunksStep(items, i, chunkSize, chunks);
      chunks := chunks + [items[i..end]];
      i := i + chunkSize;
    }
    assert chunks + [] == chunks;
    ChunksShape(items, chunkSize, chunks);
  }

  /** The chunk lemmas stated about one given chunk sequence. */
  lemma ChunksShape<T>(items: seq<T>, chunkSize: nat, chunks: seq<seq<T>>)
    requires chunkSize > 0 && chunks == Chunks(items, chunkSize)
    ensures Flatten(chunks) == items
    ensures forall i :: 0 <= i < |chunks| - 1 ==> |chunks[i]| == chunkSize
    ensures chunks != [] ==> 1 <= |chunks[|chunks| - 1]| <= chunkSize
    ensures items == [] <==> chunks == []
    ensures items != [] ==> (|chunks| - 1) * chunkSize < |items| <= |chunks| * chunkSize
  {
    ChunksFlatten(items, chunkSize);
    ChunksSizes(items, chunkSize);
    ChunksCount(items, chunkSize);
  }

  /** One step of the loop: the chunk at `i` is the slice up to
      `i + size`, clipped to the end, and the rest starts after it. */
  lemma ChunksStep<T>(xs: seq<T>, i: nat, size: nat, done: seq<seq<T>>)
    requires size > 0 && i < |xs|
    ensures done + Chunks(Drop(xs, i), size)
      == (done + [xs[i..if i + size <= |xs| then i + size else |xs|]]) + Chunks(Drop(xs, i + size), size)
  {
    var rest := xs[i..];
    var end := if i + size <= |xs| then i + size else |xs|;
    if |rest| > size {
      assert rest[..size] == xs[i..i + size];
      assert rest[size..] == Drop(xs, i + size);
    } else {
      assert Drop(xs, i + size) == [];
      assert rest == xs[i..|xs|];
      assert Chunks(rest, size) == [rest];
    }
    assert Chunks(Drop(xs, i), size) == [xs[i..end]] + Chunks(Drop(xs, i + size), size);
  }

  // ---------------------------------------------------------------------
  // escapeMd
  // ---------------------------------------------------------------------

  /** `.replace(/\|/g, '\\|')`. */
  function EscapePipes(s: string): string {
    if s == [] then [] else (if s[0] == '|' then "\\|" else [s[0]]) + EscapePipes(s[1..])
  }

  /** `.replace(/\n/g, ' ')`. */
  function NewlinesToSpaces(s: string): string {
    if s == [] then [] else [if s[0] == '\n' then ' ' else s[0]] + NewlinesToSpaces(s[1..])
  }

  /** `.replace(/\r/g, '')`. */
  function DropReturns(s: string): string {
    if s == [] then [] else (if s[0] == '\r' then [] else [s[0]]) + DropReturns(s[1..])
  }

  /** escapeMd; an empty text is returned as the empty text. */
  function EscapeMd(text: string): string {
    if text == [] then [] else DropReturns(NewlinesToSpaces(EscapePipes(text)))
  }

  /** What escapeMd makes of one character. */
  function EscapeChar(c: char): string {
    if c == '|' then "\\|" else if c == '\n' then " " else if c == '\r' then [] else [c]
  }

  lemma {:induction false} NewlinesToSpacesShape(s: string)
    ensures '\n' !in NewlinesToSpaces(s)
    decreases |s|
  {
    if s != [] {
      NewlinesToSpacesShape(s[1..]);
    }
  }

  lemma {:induction false} DropReturnsShape(s: string)
    ensures '\r' !in DropReturns(s)
    ensures forall c :: c in DropReturns(s) ==> c in s
    decreases |s|
  {
    if s != [] {
      DropReturnsShape(s[1..]);
    }
  }

  /** An escaped text is empty for an empty input and never holds a line
      break or carriage return. */
  lemma EscapeMdSingleLine(text: string)
    ensures text == [] ==> EscapeMd(text) == []
    ensures '\n' !in EscapeMd(text) && '\r' !in EscapeMd(text)
  {
    if text != [] {
      NewlinesToSpacesShape(EscapePipes(text));
      DropReturnsShape(NewlinesToSpaces(EscapePipes(text)));
    }
  }

  lemma {:induction false} EscapePipesAppend(a: string, b: string)
    ensures EscapePipes(a + b) == EscapePipes(a) + EscapePipes(b)
    decreases |a|
  {
    if a != [] {
      assert (a + b)[1..] == a[1..] + b;
      EscapePipesAppend(a[1..], b);
    } else {
      assert a + b == b;
    }
  }

  lemma {:induction false} NewlinesToSpacesAppend(a: string, b: string)
    ensures NewlinesToSpaces(a + b) == NewlinesToSpaces(a) + NewlinesToSpaces(b)
    decreases |a|
  {
    if a != [] {
      assert (a + b)[1..] == a[1..] + b;
      NewlinesToSpacesAppend(a[1..], b);
    } else {
      assert a + b == b;
    }
  }

  lemma {:induction false} DropReturnsAppend(a: string, b: string)
    ensures DropReturns(a + b) == DropReturns(a) + DropReturns(b)
    decreases |a|
  {
    if a != [] {
      assert (a + b)[1..] == a[1..] + b;
      DropReturnsAppend(a[1..], b);
    } else {
      assert a + b == b;
    }
  }

  /** The replace chain works character by character: escaping a text is
      escaping its parts and joining them, and one character becomes
      `\|`, a space, nothing, or itself. */
  lemma EscapeMdAppend(a: string, b: string)
    ensures EscapeMd(a + b) == EscapeMd(a) + EscapeMd(b)
  {
    if a == [] {
      assert a + b == b;
    } else if b == [] {
      assert a + b == a;
    } else {
      EscapePipesAppend(a, b);
      NewlinesToSpacesAppend(EscapePipes(a), EscapePipes(b));
      DropReturnsAppend(NewlinesToSpaces(EscapePipes(a)), NewlinesToSpaces(EscapePipes(b)));
    }
  }

  lemma EscapeMdChar(c: char)
    ensures EscapeMd([c]) == EscapeChar(c)
  {
    assert [c][1..] == [];
    if c == '|' {
      assert EscapePipes([c]) == "\\|";
      assert NewlinesToSpaces("\\|") == "\\|";
      assert DropReturns("\\|") == [] + ("\\|"[0..1] + DropReturns("\\|"[1..]));
    }
  }

  /** Every '|' of an escaped text directly follows a backslash, and no
      escaped text starts with '|'. */
  predicate PipesEscaped(s: string) {
    forall i :: 0 <= i < |s| && s[i] == '|' ==> i > 0 && s[i - 1] == '\\'
  }

  lemma {:induction false} EscapeMdPipesEscaped(text: string)
    ensures PipesEscaped(EscapeMd(text))
    decreases |text|
  {
    if text != [] {
      var c, rest := text[0], text[1..];
      assert text == [c] + rest;
      EscapeMdAppend([c], rest);
      EscapeMdChar(c);
      EscapeMdPipesEscaped(rest);
      var e, r := EscapeChar(c), EscapeMd(rest);
      assert PipesEscaped(e);
      forall i | 0 <= i < |e + r| && (e + r)[i] == '|' ensures i > 0 && (e + r)[i - 1] == '\\' {
        if i >= |e| {
          assert r[i - |e|] == '|';
        }
      }
    }
  }

  // ---------------------------------------------------------------------
  // countByIndustry, countByTrigger, countByInfoType
  // ---------------------------------------------------------------------

  /** Every key is kept. */
  function KeyOf(k: string): Option<string> {
    Some(k)
  }

  /** The total of the counts listed in `order`. */
  function SumCounts(order: seq<string>, counts: map<string, nat>): nat {
    if order == [] then 0
    else SumCounts(order[..|order| - 1], counts) + (if order[|order| - 1] in counts then counts[order[|order| - 1]] else 0)
  }

  predicate Distinct(order: seq<string>) {
    forall i, j :: 0 <= i < j < |order| ==> order[i] != order[j]
  }

  /** Changing the count of a key that is not listed leaves the total. */
  lemma {:induction false} SumUnaffected(order: seq<string>, counts: map<string, nat>, k: string, v: nat)
    requires k !in order
    ensures SumCounts(order, counts[k := v]) == SumCounts(order, counts)
    decreases |order|
  {
    if order != [] {
      assert order[..|order| - 1] <= order;
      SumUnaffected(order[..|order| - 1], counts, k, v);
    }
  }

  /** Adding one to a listed key adds one to the total. */
  lemma {:induction false} SumBump(order: seq<string>, counts: map<string, nat>, k: string)
    requires Distinct(order) && k in order && k in counts
    ensures SumCounts(order, counts[k := counts[k] + 1]) == SumCounts(order, counts) + 1
    decreases |order|
  {
    var front, last := order[..|order| - 1], order[|order| - 1];
    assert order == front + [last];
    if last == k {
      assert k !in front by {
        forall i | 0 <= i < |front| ensures front[i] != k {
          assert order[i] == front[i];
        }
      }
      SumUnaffected(front, counts, k, counts[k] + 1);
    } else {
      assert k in front;
      SumBump(front, counts, k);
    }
  }

  /** One step of the counting loop on key `k`. */
  function BumpOrder(order: seq<string>, counts: map<string, nat>, k: string): seq<string> {
    if k in counts then order else order + [k]
  }

  function BumpCounts(counts: map<string, nat>, k: string): map<string, nat> {
    counts[k := if k in counts then counts[k] + 1 else 1]
  }

  /** The state after counting the keys `seen`. */
  ghost predicate Tallied(seen: seq<string>, order: seq<string>, counts: map<string, nat>) {
    && (forall k :: k in counts <==> k in seen)
    && (forall k :: k in counts ==> counts[k] == multiset(seen)[k])
    && (forall k :: k in order <==> k in counts)
    && Distinct(order)
    && SumCounts(order, counts) == |seen|
  }

  /** Counting one more key keeps the tallies exact. */
  lemma TallyStep(seen: seq<string>, k: string, next: seq<string>, order: seq<string>, counts: map<string, nat>)
    requires next == seen + [k] && Tallied(seen, order, counts)
    ensures Tallied(next, BumpOrder(order, counts, k), BumpCounts(counts, k))
  {
    TallyStepCounts(seen, k, next, counts);
    TallyStepOrder(order, counts, k);
    TallyStepSum(order, counts, k);
  }

  /** Counting one more key `k` adds it to the counted keys and adds one
      to its count. */
  lemma TallyStepCounts(seen: seq<string>, k: string, next: seq<string>, counts: map<string, nat>)
    requires next == seen + [k]
    requires forall x :: x in counts <==> x in seen
    requires forall x :: x in counts ==> counts[x] == multiset(seen)[x]
    ensures forall x :: x in BumpCounts(counts, k) <==> x in next
    ensures forall x :: x in BumpCounts(counts, k) ==> BumpCounts(counts, k)[x] == multiset(next)[x]
  {
    assert multiset(next) == multiset(seen) + multiset{k};
    if k !in counts {
      assert k !in seen;
      assert multiset(seen)[k] == 0;
    }
  }

  /** The order gains `k` exactly when `k` had no count yet, so it lists
      the counted keys once each. */
  lemma TallyStepOrder(order: seq<string>, counts: map<string, nat>, k: string)
    requires (forall x :: x in order <==> x in counts) && Distinct(order)
    ensures forall x :: x in BumpOrder(order, counts, k) <==> x in BumpCounts(counts, k)
    ensures Distinct(BumpOrder(order, counts, k))
  {
    if k !in counts {
      var o := order + [k];
      forall i, j | 0 <= i < j < |o| ensures o[i] != o[j] {
        if j == |order| {
          assert o[i] == order[i];
        } else {
          assert o[i] == order[i] && o[j] == order[j];
        }
      }
    }
  }

  /** The total grows by one. */
  lemma TallyStepSum(order: seq<string>, counts: map<string, nat>, k: string)
    requires (forall x :: x in order <==> x in counts) && Distinct(order)
    ensures SumCounts(BumpOrder(order, counts, k), BumpCounts(counts, k)) == SumCounts(order, counts) + 1
  {
    if k in counts {
      SumBump(order, counts, k);
    } else {
      SumUnaffected(order, counts, k, 1);
      assert (order + [k])[..|order|] == order;
    }
  }

  lemma TallyOrderStep(keys: seq<string>, i: nat, order: seq<string>, counts: map<string, nat>)
    requires i < |keys|
    requires order + KeepFirst(keys[i..], KeyOf, counts.Keys) == KeepFirst(keys, KeyOf, {})
    ensures BumpOrder(order, counts, keys[i]) + KeepFirst(keys[i + 1..], KeyOf, BumpCounts(counts, keys[i]).Keys)
      == KeepFirst(keys, KeyOf, {})
  {
    var k, rest := keys[i], keys[i + 1..];
    assert keys[i..] == [k] + rest;
    KeepFirstStep(k, rest, order, counts);
  }

  /** Keeping first occurrences of `[k] + rest` past the counted keys. */
  lemma KeepFirstStep(k: string, rest: seq<string>, order: seq<string>, counts: map<string, nat>)
    ensures BumpOrder(order, counts, k) + KeepFirst(rest, KeyOf, BumpCounts(counts, k).Keys)
      == order + KeepFirst([k] + rest, KeyOf, counts.Keys)
  {
    assert KeyOf(k) == Some(k);
    KeepFirstAppendStep(order, k, rest, KeyOf, counts.Keys);
    if k in counts {
      assert BumpCounts(counts, k).Keys == counts.Keys;
    } else {
      assert BumpCounts(counts, k).Keys == counts.Keys + {k};
    }
  }

  /** The counting loop `count[k] = (count[k] || 0) + 1`: the keys in the
      order of first appearance, and for each the number of times it
      occurs. The counts add up to the number of keys. */
  method CountKeys(keys: seq<string>) returns (order: seq<string>, counts: map<string, nat>)
    ensures order == KeepFirst(keys, KeyOf, {})
    ensures counts.Keys == set k | k in keys
    ensures forall k :: k in counts ==> counts[k] == multiset(keys)[k]
    ensures SumCounts(order, counts) == |keys|
  {
    order, counts := [], map[];
    var i := 0;
    TalliedStart(keys);
    assert counts.Keys == {};
    while i < |keys|
      invariant i <= |keys| && Tallied(keys[..i], order, counts)
      invariant order + KeepFirst(keys[i..], KeyOf, counts.Keys) == KeepFirst(keys, KeyOf, {})
    {
      assert keys[..i + 1] == keys[..i] + [keys[i]];
      TallyStep(keys[..i], keys[i], keys[..i + 1], order, counts);
      TallyOrderStep(keys, i, order, counts);
      order, counts := BumpOrder(order, counts, keys[i]), BumpCounts(counts, keys[i]);
      i := i + 1;
    }
    TalliedDone(keys, order, counts);
  }

  /** Before the counting loop nothing is counted. */
  lemma TalliedStart(keys: seq<string>)
    ensures Tallied(keys[..0], [], map[])
    ensures [] + KeepFirst(keys[0..], KeyOf, {}) == KeepFirst(keys, KeyOf, {})
  {
    assert keys[..0] == [] && keys[0..] == keys;
  }

  /** After the counting loop every key is counted, in first-seen order. */
  lemma TalliedDone(keys: seq<string>, order: seq<string>, counts: map<string, nat>)
    requires Tallied(keys[..|keys|], order, counts)
    requires order + KeepFirst(keys[|keys|..], KeyOf, counts.Keys) == KeepFirst(keys, KeyOf, {})
    ensures order == KeepFirst(keys, KeyOf, {})
    ensures counts.Keys == set k | k in keys
    ensures forall k :: k in counts ==> counts[k] == multiset(keys)[k]
    ensures SumCounts(order, counts) == |keys|
  {
    assert keys[|keys|..] == [] && keys[..|keys|] == keys;
    assert order + [] == order;
    CountedKeys(counts, keys);
  }

  /** A map whose keys are exactly the members of `keys` has their set as
      its key set. */
  lemma CountedKeys(counts: map<string, nat>, keys: seq<string>)
    requires forall k :: k in counts <==> k in keys
    ensures counts.Keys == set k | k in keys
  {
  }

  function Industries(records: seq<CaseStudyRecord>): (r: seq<string>)
    ensures |r| == |records| && forall i :: 0 <= i < |records| ==> r[i] == records[i].industry
  {
    seq(|records|, i requires 0 <= i < |records| => records[i].industry)
  }

  function InfoTypes(records: seq<CaseStudyRecord>): (r: seq<string>)
    ensures |r| == |records| && forall i :: 0 <= i < |records| ==> r[i] == records[i].infoType
  {
    seq(|records|, i requires 0 <= i < |records| => records[i].infoType)
  }

  /** countByIndustry: each 業種 value with the number of records holding
      it; the counts add up to the number of records. */
  method CountByIndustry(records: seq<CaseStudyRecord>) returns (order: seq<string>, counts: map<string, nat>)
    ensures order == KeepFirst(Industries(records), KeyOf, {})
    ensures counts.Keys == set r | r in records :: r.industry
    ensures forall k :: k in counts ==> counts[k] == multiset(Industries(records))[k]
    ensures SumCounts(order, counts) == |records|
  {
    order, counts := CountKeys(Industries(records));
    RecordValues(records, Industries(records), (r: CaseStudyRecord) => r.industry);
  }

  /** countByInfoType: each 情報の種類 value with the number of records
      holding it; the counts add up to the number of records. */
  method CountByInfoType(records: seq<CaseStudyRecord>) returns (order: seq<string>, counts: map<string, nat>)
    ensures order == KeepFirst(InfoTypes(records), KeyOf, {})
    ensures counts.Keys == set r | r in records :: r.infoType
    ensures forall k :: k in counts ==> counts[k] == multiset(InfoTypes(records))[k]
    ensures SumCounts(order, counts) == |records|
  {
    order, counts := CountKeys(InfoTypes(records));
    RecordValues(records, InfoTypes(records), (r: CaseStudyRecord) => r.infoType);
  }

  lemma RecordValues(records: seq<CaseStudyRecord>, values: seq<string>, f: CaseStudyRecord -> string)
    requires |values| == |records| && forall i :: 0 <= i < |records| ==> values[i] == f(records[i])
    ensures (set k | k in values) == set r | r in records :: f(r)
  {
    forall k | k in values ensures k in set r | r in records :: f(r) {
      var i :| 0 <= i < |values| && values[i] == k;
      assert f(records[i]) == k;
    }
  }

  /** `トリガー種別.split('/')[0]?.trim()`: the trimmed text before the first
      '/'. */
  function TriggerHead(trigger: string): (r: string)
    ensures '/' !in r && Trim(r) == r
  {
    TrimIdempotent(BeforeFirst(trigger, '/'));
    Trim(BeforeFirst(trigger, '/'))
  }

  /** The trigger head of every record, in order. */
  function TriggerHeads(records: seq<CaseStudyRecord>): (heads: seq<string>)
    ensures |heads| == |records|
    ensures forall i :: 0 <= i < |records| ==> heads[i] == TriggerHead(records[i].triggerType)
  {
    seq(|records|, i requires 0 <= i < |records| => TriggerHead(records[i].triggerType))
  }

  predicate NonEmpty(t: string) {
    t != []
  }

  /** The trigger heads that are counted: the empty ones are skipped. */
  function TriggerKeys(records: seq<CaseStudyRecord>): (r: seq<string>)
    ensures |r| <= |records|
    ensures forall k :: k in r ==> k != [] && '/' !in k
    ensures forall rec :: rec in records && TriggerHead(rec.triggerType) != [] ==> TriggerHead(rec.triggerType) in r
  {
    var heads := TriggerHeads(records);
    var r := Filter(heads, NonEmpty);
    FilterMembers(heads, NonEmpty);
    forall k | k in r ensures k != [] && '/' !in k {
      assert k in heads && NonEmpty(k);
      var i :| 0 <= i < |heads| && heads[i] == k;
      assert k == TriggerHead(records[i].triggerType);
    }
    forall rec | rec in records && TriggerHead(rec.triggerType) != [] ensures TriggerHead(rec.triggerType) in r {
      var i :| 0 <= i < |records| && records[i] == rec;
      assert heads[i] == TriggerHead(rec.triggerType) && NonEmpty(heads[i]);
    }
    r
  }

  /** countByTrigger: only the first '/'-separated part of トリガー種別 is
      counted, trimmed, and records whose part is empty are skipped, so the
      counts add up to at most the number of records. */
  method CountByTrigger(records: seq<CaseStudyRecord>) returns (order: seq<string>, counts: map<string, nat>)
    ensures order == KeepFirst(TriggerKeys(records), KeyOf, {})
    ensures counts.Keys == set k | k in TriggerKeys(records)
    ensures forall k :: k in counts ==> counts[k] == multiset(TriggerKeys(records))[k]
    ensures SumCounts(order, counts) <= |records|
  {
    order, counts := CountKeys(TriggerKeys(records));
  }

  // ---------------------------------------------------------------------
  // generateMarkdownTable
  // ---------------------------------------------------------------------

  /** The columns emitted as stored: ID, 業種, 実装難易度, 出典URL, 情報の種類,
      公開日/更新日 and 重複判定キー. The others go through escapeMd. */
  const RawColumns: set<nat> := {0, 2, 11, 16, 17, 18, 19}

  /** The cell of column `i`: the stored value of a raw column, the
      escaped value of any other. */
  function Cell(r: CaseStudyRecord, i: nat): string
    requires i < |FieldNames|
  {
    if i in RawColumns then Values(r)[i] else EscapeMd(Values(r)[i])
  }

  /** The names of the raw columns. */
  const RawNames: set<string> := {"ID", "業種", "実装難易度", "出典URL", "情報の種類", "公開日/更新日", "重複判定キー"}

  /** A row has one cell per column, in header order: the stored value of
      each column named in RawNames and the escaped value of every other. */
  lemma RowCellsByName(r: CaseStudyRecord)
    ensures |RowCells(r)| == |FieldNames|
    ensures forall i :: 0 <= i < |FieldNames| ==>
      RowCells(r)[i] == if FieldNames[i] in RawNames then Values(r)[i] else EscapeMd(Values(r)[i])
  {
    forall i | 0 <= i < |FieldNames|
      ensures i in RawColumns <==> FieldNames[i] in RawNames
    {
      RawColumnName(i);
    }
  }

  /** Column `i` is raw exactly when its name is one of RawNames. */
  lemma RawColumnName(i: nat)
    requires i < |FieldNames|
    ensures i in RawColumns <==> FieldNames[i] in RawNames
  {
    if i == 7 {
      assert |FieldNames[i]| == 3;
    } else if i !in RawColumns {
      assert FieldNames[i][0] !in {'I', '業', '実', '出', '情', '公', '重'};
    }
  }

  /** The cells of a record's row, in column order. */
  function RowCells(r: CaseStudyRecord): seq<string> {
    seq(20, i requires 0 <= i < 20 => Cell(r, i))
  }

  /** `'| ' + cells.join(' | ') + ' |\n'`. */
  function TableRow(cells: seq<string>): string {
    "| " + Join(cells, " | ") + " |\n"
  }

  /** One `---` per column. */
  const Separators: seq<string> := [
    "---", "---", "---", "---", "---", "---", "---", "---", "---", "---",
    "---", "---", "---", "---", "---", "---", "---", "---", "---", "---"
  ]

  /** The header row and the separator row. */
  function HeaderRows(): string {
    TableRow(FieldNames) + TableRow(Separators)
  }

  // The functions below take the two header rows as `head`, so that the
  // proofs about the layout do not depend on the header text.

  /** The header rows `head`, then one row per record, in order. */
  function Table(head: string, records: seq<CaseStudyRecord>): string
    decreases |records|
  {
    if records == [] then head
    else Table(head, records[..|records| - 1]) + TableRow(RowCells(records[|records| - 1]))
  }

  function MarkdownTable(records: seq<CaseStudyRecord>): string {
    Table(HeaderRows(), records)
  }

  /** The loop of generateMarkdownTable: a row is appended to `table`
      for each record. */
  method AppendRows(head: string, records: seq<CaseStudyRecord>) returns (table: string)
    ensures table == Table(head, records)
  {
    table := head;
    var i := 0;
    while i < |records|
      invariant i <= |records|
      invariant table == Table(head, records[..i])
    {
      assert records[..i + 1][..i] == records[..i];
      table := table + TableRow(RowCells(records[i]));
      i := i + 1;
    }
    assert records[..i] == records;
  }

  /** generateMarkdownTable: the header and separator rows, then one row per
      record. */
  method GenerateMarkdownTable(records: seq<CaseStudyRecord>) returns (table: string)
    ensures table == MarkdownTable(records)
  {
    table := AppendRows(HeaderRows(), records);
  }

  lemma {:induction false} JoinNoNewline(parts: seq<string>, sep: string)
    requires '\n' !in sep && forall i :: 0 <= i < |parts| ==> '\n' !in parts[i]
    ensures '\n' !in Join(parts, sep)
    decreases |parts|
  {
    if |parts| > 1 {
      JoinNoNewline(parts[1..], sep);
    }
  }

  /** No raw column holds a line break. */
  predicate RawSingleLine(r: CaseStudyRecord) {
    forall i :: 0 <= i < |FieldNames| && i in RawColumns ==> '\n' !in Values(r)[i]
  }

  /** A row is one line: it holds exactly one line break, at its end. */
  lemma RowIsOneLine(cells: seq<string>)
    requires forall i :: 0 <= i < |cells| ==> '\n' !in cells[i]
    ensures var row := TableRow(cells); multiset(row)['\n'] == 1 && row[|row| - 1] == '\n'
  {
    JoinNoNewline(cells, " | ");
    var j := Join(cells, " | ");
    assert multiset(j)['\n'] == 0;
    assert TableRow(cells) == "| " + j + " |\n";
  }

  /** Every '|' inside an escaped cell is preceded by a backslash, so only
      the separators introduced by the row split a line into cells. */
  lemma EscapedCells(r: CaseStudyRecord)
    ensures forall i :: 0 <= i < |FieldNames| && i !in RawColumns ==> PipesEscaped(RowCells(r)[i]) && '\n' !in RowCells(r)[i]
  {
    forall i | 0 <= i < |FieldNames| && i !in RawColumns
      ensures PipesEscaped(RowCells(r)[i]) && '\n' !in RowCells(r)[i]
    {
      EscapeMdPipesEscaped(Values(r)[i]);
      EscapeMdSingleLine(Values(r)[i]);
    }
  }

  lemma RowCellsSingleLine(r: CaseStudyRecord)
    requires RawSingleLine(r)
    ensures forall i :: 0 <= i < |RowCells(r)| ==> '\n' !in RowCells(r)[i]
  {
    forall i | 0 <= i < |RowCells(r)| ensures '\n' !in RowCells(r)[i] {
      EscapeMdSingleLine(Values(r)[i]);
    }
  }

  lemma FieldNamesSingleLine()
    ensures forall i :: 0 <= i < |FieldNames| ==> '\n' !in FieldNames[i]
  {
  }

  lemma SeparatorsSingleLine()
    ensures forall i :: 0 <= i < |Separators| ==> '\n' !in Separators[i]
  {
  }

  lemma HeaderLine()
    ensures multiset(TableRow(FieldNames))['\n'] == 1
  {
    FieldNamesSingleLine();
    RowIsOneLine(FieldNames);
  }

  lemma SeparatorLine()
    ensures multiset(TableRow(Separators))['\n'] == 1
  {
    SeparatorsSingleLine();
    RowIsOneLine(Separators);
  }

  /** The header and the separator row are one line each. */
  lemma HeaderRowsLines()
    ensures multiset(HeaderRows())['\n'] == 2
  {
    HeaderLine();
    SeparatorLine();
    assert multiset(HeaderRows()) == multiset(TableRow(FieldNames)) + multiset(TableRow(Separators));
  }

  /** Each record adds one line to the table, as long as no raw column
      holds a line break. */
  lemma {:induction false} TableLines(head: string, records: seq<CaseStudyRecord>)
    requires forall i :: 0 <= i < |records| ==> RawSingleLine(records[i])
    ensures multiset(Table(head, records))['\n'] == multiset(head)['\n'] + |records|
    decreases |records|
  {
    if records != [] {
      var front, last := records[..|records| - 1], records[|records| - 1];
      TableLines(head, front);
      RowCellsSingleLine(last);
      var row := TableRow(RowCells(last));
      RowIsOneLine(RowCells(last));
      assert multiset(Table(head, front) + row) == multiset(Table(head, front)) + multiset(row);
    }
  }

  /** The table has a header line, a separator line and one line per
      record, as long as no raw column holds a line break. */
  lemma MarkdownTableLines(records: seq<CaseStudyRecord>)
    requires forall i :: 0 <= i < |records| ==> RawSingleLine(records[i])
    ensures multiset(MarkdownTable(records))['\n'] == 2 + |records|
  {
    HeaderRowsLines();
    TableLines(HeaderRows(), records);
  }

  // ---------------------------------------------------------------------
  // outputMarkdownWithCSV and outputFocusIndustries
  // ---------------------------------------------------------------------

  const ChunkSize: nat := 50
  const DocumentTitle: string := "# n8n事例収集結果\n\n"

  /** `## Part ${i + 1} (${chunk.length}件)` and a blank line. */
  function PartHeading(i: nat, n: nat): string {
    "## Part " + DecimalString(i + 1) + " (" + DecimalString(n) + "件)\n\n"
  }

  /** The section of chunk `i`: heading, table, and the chunk's CSV text in
      a fenced block. */
  function Section(head: string, i: nat, chunk: seq<CaseStudyRecord>, csv: seq<CaseStudyRecord> -> string): string {
    PartHeading(i, |chunk|) + Table(head, chunk) + "\n\n" + "```csv\n" + csv(chunk) + "```\n\n"
  }

  /** The title, then the sections of the chunks, numbered from 0. */
  function Sections(head: string, chunks: seq<seq<CaseStudyRecord>>, csv: seq<CaseStudyRecord> -> string): string
    decreases |chunks|
  {
    if chunks == [] then DocumentTitle
    else Sections(head, chunks[..|chunks| - 1], csv) + Section(head, |chunks| - 1, chunks[|chunks| - 1], csv)
  }

  function Document(head: string, records: seq<CaseStudyRecord>, csv: seq<CaseStudyRecord> -> string): string {
    Sections(head, Chunks(records, ChunkSize), csv)
  }

  function MarkdownDocument(records: seq<CaseStudyRecord>, csv: seq<CaseStudyRecord> -> string): string {
    Document(HeaderRows(), records, csv)
  }

  /** The loop of outputMarkdownWithCSV over the chunks. */
  method WriteSections(head: string, chunks: seq<seq<CaseStudyRecord>>, csv: seq<CaseStudyRecord> -> string)
    returns (markdown: string)
    ensures markdown == Sections(head, chunks, csv)
  {
    markdown := DocumentTitle;
    var i := 0;
    while i < |chunks|
      invariant i <= |chunks|
      invariant markdown == Sections(head, chunks[..i], csv)
    {
      var chunk := chunks[i];
      SectionsStep(head, chunks, csv, i);
      var table := AppendRows(head, chunk);
      var section := PartHeading(i, |chunk|) + table + "\n\n" + "```csv\n" + csv(chunk) + "```\n\n";
      assert section == Section(head, i, chunk, csv);
      markdown := markdown + section;
      i := i + 1;
    }
    assert chunks[..i] == chunks;
  }

  /** The sections of one more chunk add that chunk's section. */
  lemma SectionsStep(head: string, chunks: seq<seq<CaseStudyRecord>>, csv: seq<CaseStudyRecord> -> string, i: nat)
    requires i < |chunks|
    ensures Sections(head, chunks[..i + 1], csv) == Sections(head, chunks[..i], csv) + Section(head, i, chunks[i], csv)
  {
    var pre := chunks[..i + 1];
    assert |pre| == i + 1 && pre[..i] == chunks[..i] && pre[i] == chunks[i];
  }

  /** The text outputMarkdownWithCSV writes: the title, then one section per
      chunk of 50 records. */
  method OutputMarkdownWithCsv(records: seq<CaseStudyRecord>, csv: seq<CaseStudyRecord> -> string)
    returns (markdown: string)
    ensures markdown == MarkdownDocument(records, csv)
  {
    var chunks := ChunkArray(records, ChunkSize);
    markdown := WriteSections(HeaderRows(), chunks, csv);
  }

  /** Chunk `i` is the slice of `size` elements starting at `i·size`,
      clipped to the end. */
  lemma {:induction false} ChunkAt<T>(xs: seq<T>, size: nat, i: nat)
    requires size > 0 && i < |Chunks(xs, size)|
    ensures i * size < |xs|
    ensures Chunks(xs, size)[i] == xs[i * size..if (i + 1) * size <= |xs| then (i + 1) * size else |xs|]
    decreases i
  {
    if i == 0 {
      assert xs != [];
    } else {
      assert |xs| > size;
      var ys := xs[size..];
      assert Chunks(xs, size) == [xs[..size]] + Chunks(ys, size);
      ChunkAt(ys, size, i - 1);
      var lo, hi, next := (i - 1) * size, i * size, (i + 1) * size;
      MulSucc(i, size, lo, hi, next);
      var end := if hi <= |ys| then hi else |ys|;
      assert Chunks(ys, size)[i - 1] == ys[lo..end];
      ShiftSlice(xs, size, lo, end);
      assert end + size == if next <= |xs| then next else |xs|;
    }
  }

  lemma ShiftSlice<T>(xs: seq<T>, size: nat, lo: nat, end: nat)
    requires size <= |xs| && lo <= end <= |xs| - size
    ensures xs[size..][lo..end] == xs[lo + size..end + size]
  {
  }

  lemma MulSucc(i: nat, size: nat, lo: int, hi: int, next: int)
    requires i > 0 && lo == (i - 1) * size && hi == i * size && next == (i + 1) * size
    ensures lo + size == hi && hi + size == next
  {
  }

  /** Section `i`, for i from 0, starts with the heading `## Part i+1`
      showing the size of its chunk, which holds records 50·i up to
      50·(i+1), and the sections come in chunk order. */
  lemma SectionLayout(head: string, records: seq<CaseStudyRecord>, csv: seq<CaseStudyRecord> -> string, i: nat)
    requires i < |Chunks(records, ChunkSize)|
    ensures i * ChunkSize < |records|
    ensures var chunks := Chunks(records, ChunkSize);
      && chunks[i] == records[i * ChunkSize..if (i + 1) * ChunkSize <= |records| then (i + 1) * ChunkSize else |records|]
      && PartHeading(i, |chunks[i]|) <= Section(head, i, chunks[i], csv)
      && Sections(head, chunks[..i + 1], csv) == Sections(head, chunks[..i], csv) + Section(head, i, chunks[i], csv)
      && Sections(head, chunks[..i + 1], csv) <= Sections(head, chunks, csv)
  {
    var chunks := Chunks(records, ChunkSize);
    ChunkAt(records, ChunkSize, i);
    SectionsPrefix(head, chunks, csv, i + 1);
    SectionsStep(head, chunks, csv, i);
    assert PartHeading(i, |chunks[i]|) <= Section(head, i, chunks[i], csv);
  }

  /** The sections of a prefix of the chunks are a prefix of the text. */
  lemma {:induction false} SectionsPrefix(head: string, chunks: seq<seq<CaseStudyRecord>>, csv: seq<CaseStudyRecord> -> string, n: nat)
    requires n <= |chunks|
    ensures Sections(head, chunks[..n], csv) <= Sections(head, chunks, csv)
    decreases |chunks| - n
  {
    if n < |chunks| {
      SectionsPrefix(head, chunks, csv, n + 1);
      SectionsStep(head, chunks, csv, n);
      var a, b := Sections(head, chunks[..n], csv), Sections(head, chunks[..n + 1], csv);
      assert b[..|a|] == a;
    } else {
      assert chunks[..n] == chunks;
    }
  }

  const FocusIndustries: seq<string> := ["不動産", "ホテル", "飲食", "ナイト"]

  function InFocus(r: CaseStudyRecord): bool {
    r.industry in FocusIndustries
  }

  /** The filter of outputFocusIndustries. */
  function FocusRecords(records: seq<CaseStudyRecord>): seq<CaseStudyRecord> {
    Filter(records, InFocus)
  }

  /** Filtering keeps each kept value as often as it occurs. */
  lemma {:induction false} FilterCounts<T>(s: seq<T>, keep: T -> bool, x: T)
    ensures multiset(Filter(s, keep))[x] == if keep(x) then multiset(s)[x] else 0
    decreases |s|
  {
    if s != [] {
      FilterCounts(s[1..], keep, x);
      assert s == [s[0]] + s[1..];
    }
  }

  /** The focus filter keeps exactly the records in the four focus
      industries, each as often as it occurs, and in their order. */
  lemma FocusRecordsExact(records: seq<CaseStudyRecord>)
    ensures IsSubseq(FocusRecords(records), records)
    ensures forall r :: r in FocusRecords(records) <==> r in records && r.industry in FocusIndustries
    ensures forall r :: multiset(FocusRecords(records))[r] == if InFocus(r) then multiset(records)[r] else 0
  {
    FilterIsSubseq(records, InFocus);
    FilterMembers(records, InFocus);
    forall r ensures multiset(FocusRecords(records))[r] == if InFocus(r) then multiset(records)[r] else 0 {
      FilterCounts(records, InFocus, r);
    }
  }

  /** outputFocusIndustries writes the document of the focus records. */
  method OutputFocusIndustries(records: seq<CaseStudyRecord>, csv: seq<CaseStudyRecord> -> string)
    returns (markdown: string)
    ensures markdown == MarkdownDocument(FocusRecords(records), csv)
  {
    markdown := OutputMarkdownWithCsv(FocusRecords(records), csv);
  }
}
