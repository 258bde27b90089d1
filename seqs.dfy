/** Order-preserving sequence relations used by the filters and the
    de-duplication passes. */
module Seqs {

  /** `a` is obtained from `b` by deleting elements, keeping the order. */
  predicate IsSubseq<T(==)>(a: seq<T>, b: seq<T>)
    decreases |b|
  {
    if a == [] then true
    else if b == [] then false
    else if a[0] == b[0] then IsSubseq(a[1..], b[1..])
    else IsSubseq(a, b[1..])
  }

  lemma {:induction false} SubseqConsRight<T>(a: seq<T>, x: T, b: seq<T>)
    requires IsSubseq(a, b)
    ensures IsSubseq(a, [x] + b)
    decreases |b|, 1
  {
    if a != [] && a[0] == x {
      SubseqTail(a, b);
      assert ([x] + b)[1..] == b;
    } else {
      assert ([x] + b)[1..] == b;
    }
  }

  lemma {:induction false} SubseqTail<T>(a: seq<T>, b: seq<T>)
    requires a != [] && IsSubseq(a, b)
    ensures IsSubseq(a[1..], b)
    decreases |b|, 0
  {
    if a[0] == b[0] {
      SubseqConsRight(a[1..], b[0], b[1..]);
      assert [b[0]] + b[1..] == b;
    } else {
      SubseqTail(a, b[1..]);
      SubseqConsRight(a[1..], b[0], b[1..]);
      assert [b[0]] + b[1..] == b;
    }
  }

  lemma {:induction false} SubseqConsBoth<T>(x: T, a: seq<T>, b: seq<T>)
    requires IsSubseq(a, b)
    ensures IsSubseq([x] + a, [x] + b)
  {
    assert ([x] + a)[1..] == a;
    assert ([x] + b)[1..] == b;
  }

  lemma {:induction false} SubseqElements<T>(a: seq<T>, b: seq<T>)
    requires IsSubseq(a, b)
    ensures |a| <= |b|
    ensures forall x :: x in a ==> x in b
    decreases |b|
  {
    if a != [] && b != [] {
      if a[0] == b[0] {
        SubseqElements(a[1..], b[1..]);
        assert a == [a[0]] + a[1..];
      } else {
        SubseqElements(a, b[1..]);
      }
    }
  }

  /** The elements of `s` satisfying `keep`, in order (`Array.prototype.filter`). */
  function Filter<T>(s: seq<T>, keep: T -> bool): (r: seq<T>)
    ensures |r| <= |s|
  {
    if s == [] then []
    else if keep(s[0]) then [s[0]] + Filter(s[1..], keep)
    else Filter(s[1..], keep)
  }

  /** The filter keeps exactly the elements that pass. */
  lemma {:induction false} FilterMembers<T>(s: seq<T>, keep: T -> bool)
    ensures forall x :: x in Filter(s, keep) ==> x in s && keep(x)
    ensures forall i :: 0 <= i < |s| && keep(s[i]) ==> s[i] in Filter(s, keep)
  {
    if s != [] {
      FilterMembers(s[1..], keep);
      assert forall i :: 1 <= i < |s| ==> s[i] == s[1..][i - 1];
    }
  }

  lemma {:induction false} FilterIsSubseq<T>(s: seq<T>, keep: T -> bool)
    ensures IsSubseq(Filter(s, keep), s)
  {
    if s != [] {
      FilterIsSubseq(s[1..], keep);
      assert s == [s[0]] + s[1..];
      if keep(s[0]) {
        SubseqConsBoth(s[0], Filter(s[1..], keep), s[1..]);
      } else {
        SubseqConsRight(Filter(s[1..], keep), s[0], s[1..]);
      }
    }
  }

  lemma {:induction false} FilterAppend<T>(a: seq<T>, b: seq<T>, keep: T -> bool)
    ensures Filter(a + b, keep) == Filter(a, keep) + Filter(b, keep)
  {
    if a != [] {
      assert (a + b)[1..] == a[1..] + b;
      FilterAppend(a[1..], b, keep);
    } else {
      assert a + b == b;
    }
  }

  /** Concatenation of a list of lists (`Array.prototype.flat`). */
  function Flatten<T>(xss: seq<seq<T>>): seq<T>
  {
    if xss == [] then [] else xss[0] + Flatten(xss[1..])
  }
}

/** First-seen-wins de-duplication: the loop `for x of xs { if (key ok &&
    !seen.has(key)) { seen.add(key); out.push(x) } }`, written once for the
    three passes of the pipeline that share it. `keyOf` gives `None` for an
    element the pass drops whatever it has seen. */
module FirstSeen {
  import opened Wrappers
  import opened Seqs

  function KeepFirst<T>(xs: seq<T>, keyOf: T -> Option<string>, seen: set<string>): seq<T> {
    if xs == [] then []
    else
      var k := keyOf(xs[0]);
      if k.None? || k.value in seen then KeepFirst(xs[1..], keyOf, seen)
      else [xs[0]] + KeepFirst(xs[1..], keyOf, seen + {k.value})
  }

  /** One step of a first-seen loop: an element with a fresh key is
      appended and its key becomes seen; any other element is skipped. */
  lemma KeepFirstAppendStep<T>(done: seq<T>, x: T, rest: seq<T>, keyOf: T -> Option<string>, seen: set<string>)
    ensures keyOf(x).Some? && keyOf(x).value !in seen ==>
      (done + [x]) + KeepFirst(rest, keyOf, seen + {keyOf(x).value}) == done + KeepFirst([x] + rest, keyOf, seen)
    ensures !(keyOf(x).Some? && keyOf(x).value !in seen) ==>
      done + KeepFirst(rest, keyOf, seen) == done + KeepFirst([x] + rest, keyOf, seen)
  {
    assert ([x] + rest)[0] == x && ([x] + rest)[1..] == rest;
    if keyOf(x).Some? && keyOf(x).value !in seen {
      var tail := KeepFirst(rest, keyOf, seen + {keyOf(x).value});
      assert (done + [x]) + tail == done + ([x] + tail);
    }
  }

  /** `xs[i]` has an eligible key, not seen before the pass, that no earlier
      element carries. */
  predicate FirstOfKey<T>(xs: seq<T>, i: nat, keyOf: T -> Option<string>, seen: set<string>)
    requires i < |xs|
  {
    && keyOf(xs[i]).Some?
    && keyOf(xs[i]).value !in seen
    && forall j :: 0 <= j < i ==> keyOf(xs[j]) != keyOf(xs[i])
  }

  /** Every element has an eligible key outside `seen`. */
  predicate KeysFresh<T>(r: seq<T>, keyOf: T -> Option<string>, seen: set<string>) {
    forall i :: 0 <= i < |r| ==> keyOf(r[i]).Some? && keyOf(r[i]).value !in seen
  }

  predicate KeysDistinct<T>(r: seq<T>, keyOf: T -> Option<string>) {
    forall i, j :: 0 <= i < j < |r| ==> keyOf(r[i]) != keyOf(r[j])
  }

  /** The kept keys are present, unseen and pairwise distinct. */
  lemma {:induction false} KeepFirstKeys<T>(xs: seq<T>, keyOf: T -> Option<string>, seen: set<string>)
    ensures KeysFresh(KeepFirst(xs, keyOf, seen), keyOf, seen)
    ensures KeysDistinct(KeepFirst(xs, keyOf, seen), keyOf)
  {
    if xs != [] {
      var k := keyOf(xs[0]);
      if k.None? || k.value in seen {
        KeepFirstKeys(xs[1..], keyOf, seen);
      } else {
        var r := KeepFirst(xs, keyOf, seen);
        var rest := KeepFirst(xs[1..], keyOf, seen + {k.value});
        KeepFirstKeys(xs[1..], keyOf, seen + {k.value});
        assert r == [xs[0]] + rest;
        assert forall i :: 1 <= i < |r| ==> r[i] == rest[i - 1];
      }
    }
  }

  lemma {:induction false} KeepFirstIsSubseq<T>(xs: seq<T>, keyOf: T -> Option<string>, seen: set<string>)
    ensures IsSubseq(KeepFirst(xs, keyOf, seen), xs)
  {
    if xs != [] {
      var k := keyOf(xs[0]);
      assert xs == [xs[0]] + xs[1..];
      if k.None? || k.value in seen {
        KeepFirstIsSubseq(xs[1..], keyOf, seen);
        SubseqConsRight(KeepFirst(xs[1..], keyOf, seen), xs[0], xs[1..]);
      } else {
        KeepFirstIsSubseq(xs[1..], keyOf, seen + {k.value});
        SubseqConsBoth(xs[0], KeepFirst(xs[1..], keyOf, seen + {k.value}), xs[1..]);
      }
    }
  }

  /** Every first occurrence of a key is kept. */
  lemma {:induction false} KeepFirstKeepsFirsts<T>(xs: seq<T>, keyOf: T -> Option<string>, seen: set<string>, i: nat)
    requires i < |xs| && FirstOfKey(xs, i, keyOf, seen)
    ensures xs[i] in KeepFirst(xs, keyOf, seen)
  {
    var k := keyOf(xs[0]);
    if i > 0 {
      var seen' := if k.None? || k.value in seen then seen else seen + {k.value};
      assert keyOf(xs[0]) != keyOf(xs[i]);
      assert FirstOfKey(xs[1..], i - 1, keyOf, seen') by {
        forall j | 0 <= j < i - 1 ensures keyOf(xs[1..][j]) != keyOf(xs[1..][i - 1]) {
          assert keyOf(xs[j + 1]) != keyOf(xs[i]);
        }
      }
      KeepFirstKeepsFirsts(xs[1..], keyOf, seen', i - 1);
    }
  }

  /** Every kept element is the first occurrence of its key. */
  lemma {:induction false} KeepFirstOnlyFirsts<T>(xs: seq<T>, keyOf: T -> Option<string>, seen: set<string>, m: nat)
    requires m < |KeepFirst(xs, keyOf, seen)|
    ensures exists i :: 0 <= i < |xs| && xs[i] == KeepFirst(xs, keyOf, seen)[m] && FirstOfKey(xs, i, keyOf, seen)
  {
    var k := keyOf(xs[0]);
    var r := KeepFirst(xs, keyOf, seen);
    if !(k.None? || k.value in seen) && m == 0 {
      assert xs[0] == r[0] && FirstOfKey(xs, 0, keyOf, seen);
    } else {
      var seen' := if k.None? || k.value in seen then seen else seen + {k.value};
      var m' := if k.None? || k.value in seen then m else m - 1;
      KeepFirstOnlyFirsts(xs[1..], keyOf, seen', m');
      var i' :| 0 <= i' < |xs| - 1 && xs[1..][i'] == KeepFirst(xs[1..], keyOf, seen')[m'] && FirstOfKey(xs[1..], i', keyOf, seen');
      assert xs[i' + 1] == r[m];
      assert FirstOfKey(xs, i' + 1, keyOf, seen) by {
        forall j | 0 <= j < i' + 1 ensures keyOf(xs[j]) != keyOf(xs[i' + 1]) {
          if j > 0 {
            assert keyOf(xs[1..][j - 1]) != keyOf(xs[1..][i']);
          }
        }
      }
    }
  }

  /** A list whose keys are present, unseen and distinct is kept whole. */
  lemma {:induction false} KeepFirstOfDistinct<T>(ys: seq<T>, keyOf: T -> Option<string>, seen: set<string>)
    requires KeysFresh(ys, keyOf, seen) && KeysDistinct(ys, keyOf)
    ensures KeepFirst(ys, keyOf, seen) == ys
  {
    if ys != [] {
      var k := keyOf(ys[0]).value;
      assert forall i :: 1 <= i < |ys| ==> keyOf(ys[i]).value != k by {
        forall i | 1 <= i < |ys| ensures keyOf(ys[i]).value != k {
          assert keyOf(ys[0]) != keyOf(ys[i]);
        }
      }
      KeepFirstOfDistinct(ys[1..], keyOf, seen + {k});
    }
  }

  lemma KeepFirstIdempotent<T>(xs: seq<T>, keyOf: T -> Option<string>)
    ensures KeepFirst(KeepFirst(xs, keyOf, {}), keyOf, {}) == KeepFirst(xs, keyOf, {})
  {
    KeepFirstKeys(xs, keyOf, {});
    KeepFirstOfDistinct(KeepFirst(xs, keyOf, {}), keyOf, {});
  }

  /** Every eligible key of the input is the key of some kept element. */
  lemma KeepFirstCoversKeys<T>(xs: seq<T>, keyOf: T -> Option<string>, i: nat)
    requires i < |xs| && keyOf(xs[i]).Some?
    ensures exists m :: 0 <= m < |KeepFirst(xs, keyOf, {})| && keyOf(KeepFirst(xs, keyOf, {})[m]) == keyOf(xs[i])
  {
    var first := FirstIndexOfKey(xs, keyOf, i);
    KeepFirstKeepsFirsts(xs, keyOf, {}, first);
    var r := KeepFirst(xs, keyOf, {});
    var m :| 0 <= m < |r| && r[m] == xs[first];
  }

  /** The smallest index whose key equals the key at `i`. */
  function FirstIndexOfKey<T>(xs: seq<T>, keyOf: T -> Option<string>, i: nat): (f: nat)
    requires i < |xs| && keyOf(xs[i]).Some?
    ensures f <= i && keyOf(xs[f]) == keyOf(xs[i]) && FirstOfKey(xs, f, keyOf, {})
    decreases i
  {
    if exists j :: 0 <= j < i && keyOf(xs[j]) == keyOf(xs[i]) then
      var j :| 0 <= j < i && keyOf(xs[j]) == keyOf(xs[i]);
      FirstIndexOfKey(xs, keyOf, j)
    else i
  }
}
