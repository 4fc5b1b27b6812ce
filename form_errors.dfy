/**
 * Validation results of a form, as the form instance hook aggregates them
 * (src/form/hooks/useInstance.tsx, `validate` and `getFirstError`).
 *
 * A JavaScript object from field names to entries is modelled as an
 * association list kept in key-insertion order, which is the order
 * `Object.keys` reports for non-numeric keys.
 */
module FormErrors {
  import opened Wrappers

  /** One rule check of a form item: `result == false` means the rule failed. */
  datatype RuleResult = RuleResult(result: bool, message: string)

  /** The value under a field name: `true` (passed) or the list of rule checks. */
  datatype Entry = Passed | Rules(results: seq<RuleResult>)

  /** A result object `{ [name]: true | RuleResult[] }`, in insertion order. */
  type ErrorMap = seq<(string, Entry)>

  /** What `validate` resolves to: `true`, or the object of the failing fields. */
  datatype FormValidateResult = AllValid | Errors(errors: ErrorMap)

  // ---------------------------------------------------------------------------
  // Association lists as JavaScript objects
  // ---------------------------------------------------------------------------

  /** `Object.keys(m)`. */
  function Keys(m: ErrorMap): (ks: seq<string>)
    ensures |ks| == |m|
    ensures forall i :: 0 <= i < |m| ==> ks[i] == m[i].0
  {
    if m == [] then [] else [m[0].0] + Keys(m[1..])
  }

  /**
   * A JavaScript object never holds the same key twice. This is `Distinct(Keys(m))`
   * (see `IsObjectKeys`); the index form is kept because its quantifier triggers on
   * `m[i]` directly, so the merge and clean proofs need not unfold `Keys`.
   */
  predicate IsObject(m: ErrorMap)
  {
    forall i, j :: 0 <= i < j < |m| ==> m[i].0 != m[j].0
  }

  predicate AllObjects(arr: seq<ErrorMap>)
  {
    forall i :: 0 <= i < |arr| ==> IsObject(arr[i])
  }

  /** Index of the first occurrence of `x` in `xs`. */
  function IndexOf(xs: seq<string>, x: string): (i: nat)
    requires x in xs
    ensures i < |xs| && xs[i] == x && forall j :: 0 <= j < i ==> xs[j] != x
  {
    if xs[0] == x then 0 else 1 + IndexOf(xs[1..], x)
  }

  /** `m[k]`, with `None` for `undefined`. */
  function Lookup(m: ErrorMap, k: string): Option<Entry>
  {
    if k in Keys(m) then Some(m[IndexOf(Keys(m), k)].1) else None
  }

  /** `m[k] = v`: an existing key keeps its place, a new key goes last. */
  function Put(m: ErrorMap, k: string, v: Entry): (r: ErrorMap)
    ensures Keys(r) == if k in Keys(m) then Keys(m) else Keys(m) + [k]
  {
    if k in Keys(m) then
      var r := m[IndexOf(Keys(m), k) := (k, v)];
      assert Keys(r) == Keys(m);
      r
    else
      var r := m + [(k, v)];
      assert Keys(r) == Keys(m) + [k];
      r
  }

  /** `delete m[k]`: every entry under `k` goes. */
  function Delete(m: ErrorMap, k: string): ErrorMap
  {
    if m == [] then []
    else if m[0].0 == k then Delete(m[1..], k)
    else [m[0]] + Delete(m[1..], k)
  }

  /** `Object.assign(target, src)`: the keys of `src` are written in order. */
  function Assign(target: ErrorMap, src: ErrorMap): ErrorMap
    decreases |src|
  {
    if src == [] then target
    else
      var n := |src| - 1;
      Put(Assign(target, src[..n]), src[n].0, src[n].1)
  }

  /** `arr.reduce((r, err) => Object.assign(r || {}, err), {})`. */
  function MergeAll(arr: seq<ErrorMap>): ErrorMap
  {
    if arr == [] then []
    else
      var n := |arr| - 1;
      Assign(MergeAll(arr[..n]), arr[n])
  }

  /** lodash `flatten`: one level of concatenation of the per-item results. */
  function Flatten(outcomes: seq<seq<ErrorMap>>): (r: seq<ErrorMap>)
    ensures forall m :: m in r <==> exists i :: 0 <= i < |outcomes| && m in outcomes[i]
  {
    if outcomes == [] then [] else outcomes[0] + Flatten(outcomes[1..])
  }

  /**
   * Flattening keeps the item order: the result objects of a later item come
   * after those of an earlier one, so they override them in the merge.
   */
  lemma {:induction false} FlattenAppend(a: seq<seq<ErrorMap>>, b: seq<seq<ErrorMap>>)
    ensures Flatten(a + b) == Flatten(a) + Flatten(b)
    ensures Flatten([]) == [] && forall x :: Flatten([x]) == x
  {
    forall x ensures Flatten([x]) == x {
      assert [x][1..] == [];
    }
    if a == [] {
      assert a + b == b;
    } else {
      assert (a + b)[0] == a[0];
      assert (a + b)[1..] == a[1..] + b;
      FlattenAppend(a[1..], b);
    }
  }

  // ---------------------------------------------------------------------------
  // Facts about lookup and update
  // ---------------------------------------------------------------------------

  lemma IndexOfPrefix(xs: seq<string>, n: nat, x: string)
    requires n <= |xs| && x in xs[..n]
    ensures IndexOf(xs, x) == IndexOf(xs[..n], x)
  {
    var i := IndexOf(xs[..n], x);
    assert xs[i] == x;
    var j := IndexOf(xs, x);
    assert j <= i;
    assert xs[..n][j] == x;
  }

  lemma IndexOfDistinct(xs: seq<string>, i: nat)
    requires Distinct(xs) && i < |xs|
    ensures IndexOf(xs, xs[i]) == i
  {
  }

  lemma KeysAppend(a: ErrorMap, b: ErrorMap)
    ensures Keys(a + b) == Keys(a) + Keys(b)
  {
  }

  lemma IsObjectKeys(m: ErrorMap)
    ensures IsObject(m) <==> Distinct(Keys(m))
  {
    if IsObject(m) {
      assert Distinct(Keys(m));
    }
    if Distinct(Keys(m)) {
      forall i, j | 0 <= i < j < |m| ensures m[i].0 != m[j].0 {
        assert Keys(m)[i] != Keys(m)[j];
      }
    }
  }

  lemma LookupAt(m: ErrorMap, i: nat)
    requires IsObject(m) && i < |m|
    ensures Lookup(m, m[i].0) == Some(m[i].1)
  {
    IsObjectKeys(m);
    assert Keys(m)[i] == m[i].0;
    IndexOfDistinct(Keys(m), i);
  }

  lemma LookupSnoc(m: ErrorMap, x: (string, Entry), k: string)
    ensures Lookup(m + [x], k) ==
            if k in Keys(m) then Lookup(m, k) else if k == x.0 then Some(x.1) else None
  {
    KeysAppend(m, [x]);
    var ks := Keys(m) + [x.0];
    assert Keys(m + [x]) == ks;
    if k in Keys(m) {
      assert ks[..|m|] == Keys(m);
      IndexOfPrefix(ks, |m|, k);
    } else if k == x.0 {
      assert IndexOf(ks, k) == |m|;
    }
  }

  lemma LookupCons(x: (string, Entry), m: ErrorMap, k: string)
    ensures Lookup([x] + m, k) == if k == x.0 then Some(x.1) else Lookup(m, k)
  {
    KeysAppend([x], m);
    var ks := [x.0] + Keys(m);
    assert Keys([x] + m) == ks;
    assert ks[1..] == Keys(m);
    if k != x.0 && k in Keys(m) {
      assert IndexOf(ks, k) == 1 + IndexOf(Keys(m), k);
    }
  }

  lemma PutLookup(m: ErrorMap, k: string, v: Entry, k': string)
    ensures Lookup(Put(m, k, v), k') == if k' == k then Some(v) else Lookup(m, k')
  {
    if k in Keys(m) {
      var i := IndexOf(Keys(m), k);
      var r := Put(m, k, v);
      assert Keys(r) == Keys(m);
      assert r[i] == (k, v);
      if k' != k && k' in Keys(m) {
        assert IndexOf(Keys(m), k') != i;
      }
    } else {
      LookupSnoc(m, (k, v), k');
    }
  }

  lemma PutIsObject(m: ErrorMap, k: string, v: Entry)
    requires IsObject(m)
    ensures IsObject(Put(m, k, v))
  {
    IsObjectKeys(m);
    IsObjectKeys(Put(m, k, v));
  }

  lemma {:induction false} AssignIsObject(target: ErrorMap, src: ErrorMap)
    requires IsObject(target)
    ensures IsObject(Assign(target, src))
    decreases |src|
  {
    if src != [] {
      var n := |src| - 1;
      AssignIsObject(target, src[..n]);
      PutIsObject(Assign(target, src[..n]), src[n].0, src[n].1);
    }
  }

  /** The merged result is a proper object: no key twice. */
  lemma {:induction false} MergeIsObject(arr: seq<ErrorMap>)
    ensures IsObject(MergeAll(arr))
  {
    if arr != [] {
      var n := |arr| - 1;
      MergeIsObject(arr[..n]);
      AssignIsObject(MergeAll(arr[..n]), arr[n]);
    }
  }

  // ---------------------------------------------------------------------------
  // Key order: first insertion wins the place
  // ---------------------------------------------------------------------------

  /** The keys of all result objects, in the order `reduce` writes them. */
  function AllKeys(arr: seq<ErrorMap>): seq<string>
  {
    if arr == [] then [] else AllKeys(arr[..|arr| - 1]) + Keys(arr[|arr| - 1])
  }

  /** `ks` followed by the elements of `xs` not seen before, each at its first occurrence. */
  function Extend(ks: seq<string>, xs: seq<string>): seq<string>
  {
    if xs == [] then ks
    else
      var p := Extend(ks, xs[..|xs| - 1]);
      if xs[|xs| - 1] in p then p else p + [xs[|xs| - 1]]
  }

  predicate Distinct(s: seq<string>)
  {
    forall i, j :: 0 <= i < j < |s| ==> s[i] != s[j]
  }

  lemma {:induction false} ExtendAppend(ks: seq<string>, xs: seq<string>, ys: seq<string>)
    ensures Extend(ks, xs + ys) == Extend(Extend(ks, xs), ys)
    decreases |ys|
  {
    if ys == [] {
      assert xs + ys == xs;
    } else {
      var n := |ys| - 1;
      assert (xs + ys)[..|xs + ys| - 1] == xs + ys[..n];
      assert (xs + ys)[|xs + ys| - 1] == ys[n];
      ExtendAppend(ks, xs, ys[..n]);
    }
  }

  lemma KeysPrefix(m: ErrorMap, n: nat)
    requires n <= |m|
    ensures Keys(m)[..n] == Keys(m[..n])
  {
    var a, b := Keys(m)[..n], Keys(m[..n]);
    assert |a| == |b|;
    forall j | 0 <= j < n ensures a[j] == b[j] {
      assert a[j] == m[j].0 == m[..n][j].0;
    }
  }

  lemma {:induction false} AssignKeys(target: ErrorMap, src: ErrorMap)
    ensures Keys(Assign(target, src)) == Extend(Keys(target), Keys(src))
    decreases |src|
  {
    if src != [] {
      var n := |src| - 1;
      var a := Assign(target, src[..n]);
      var ks := Keys(src);
      AssignKeys(target, src[..n]);
      KeysPrefix(src, n);
      assert ks[n] == src[n].0;
      assert Assign(target, src) == Put(a, src[n].0, src[n].1);
      assert Extend(Keys(target), ks) ==
               var p := Extend(Keys(target), ks[..n]); if ks[n] in p then p else p + [ks[n]];
    }
  }

  /** The keys of the merged object are all keys written, each at its first insertion. */
  lemma {:induction false} MergeKeys(arr: seq<ErrorMap>)
    ensures Keys(MergeAll(arr)) == Extend([], AllKeys(arr))
  {
    if arr != [] {
      var n := |arr| - 1;
      MergeKeys(arr[..n]);
      AssignKeys(MergeAll(arr[..n]), arr[n]);
      ExtendAppend([], AllKeys(arr[..n]), Keys(arr[n]));
    }
  }

  lemma {:induction false} ExtendMembers(ks: seq<string>, xs: seq<string>, x: string)
    ensures x in Extend(ks, xs) <==> x in ks || x in xs
    decreases |xs|
  {
    if xs != [] {
      var n := |xs| - 1;
      ExtendMembers(ks, xs[..n], x);
      assert xs == xs[..n] + [xs[n]];
    }
  }

  /**
   * Deduplication keeps every key once, and orders the keys by their first
   * occurrence: this is the order `Object.keys` gives the merged object.
   */
  lemma {:induction false} FirstOccurrenceOrder(xs: seq<string>)
    ensures Distinct(Extend([], xs))
    ensures forall x :: x in Extend([], xs) <==> x in xs
    ensures forall i, j :: 0 <= i < j < |Extend([], xs)| ==>
              IndexOf(xs, Extend([], xs)[i]) < IndexOf(xs, Extend([], xs)[j])
    decreases |xs|
  {
    forall x ensures x in Extend([], xs) <==> x in xs { ExtendMembers([], xs, x); }
    if xs != [] {
      var n := |xs| - 1;
      var p := Extend([], xs[..n]);
      FirstOccurrenceOrder(xs[..n]);
      forall y | y in p ensures IndexOf(xs, y) == IndexOf(xs[..n], y) < n {
        IndexOfPrefix(xs, n, y);
      }
      if xs[n] !in p {
        assert xs[n] !in xs[..n];
        assert IndexOf(xs, xs[n]) == n;
      }
    }
  }

  // ---------------------------------------------------------------------------
  // Later result objects override earlier ones
  // ---------------------------------------------------------------------------

  lemma {:induction false} AssignLookup(target: ErrorMap, src: ErrorMap, k: string)
    requires IsObject(src)
    ensures Lookup(Assign(target, src), k) ==
            if k in Keys(src) then Lookup(src, k) else Lookup(target, k)
    decreases |src|
  {
    if src != [] {
      var n := |src| - 1;
      var p := src[..n];
      assert src == p + [src[n]];
      assert IsObject(p);
      AssignLookup(target, p, k);
      PutLookup(Assign(target, p), src[n].0, src[n].1, k);
      LookupSnoc(p, src[n], k);
      KeysAppend(p, [src[n]]);
      if k == src[n].0 {
        assert Keys(src)[n] == k;
        assert k !in Keys(p);
      }
    }
  }

  /** One step of the `reduce`: the last result object overrides the merge of the others. */
  lemma MergeStep(arr: seq<ErrorMap>, k: string)
    requires AllObjects(arr) && arr != []
    ensures AllObjects(arr[..|arr| - 1])
    ensures Lookup(MergeAll(arr), k) ==
              if Lookup(arr[|arr| - 1], k).Some? then Lookup(arr[|arr| - 1], k)
              else Lookup(MergeAll(arr[..|arr| - 1]), k)
  {
    var n := |arr| - 1;
    assert IsObject(arr[n]);
    AssignLookup(MergeAll(arr[..n]), arr[n], k);
  }

  /** No result object of `arr` has the key `k`. */
  predicate Unmentioned(arr: seq<ErrorMap>, k: string)
  {
    forall i :: 0 <= i < |arr| ==> Lookup(arr[i], k).None?
  }

  /** A key no result object mentions is absent from the merge, and only such a key. */
  lemma {:induction false} MergeAbsent(arr: seq<ErrorMap>, k: string)
    requires AllObjects(arr)
    ensures Lookup(MergeAll(arr), k).None? <==> Unmentioned(arr, k)
  {
    if arr != [] {
      var n := |arr| - 1;
      var p := arr[..n];
      MergeStep(arr, k);
      MergeAbsent(p, k);
      assert arr == p + [arr[n]];
      assert Unmentioned(arr, k) <==> Unmentioned(p, k) && Lookup(arr[n], k).None? by {
        forall i | 0 <= i < n ensures arr[i] == p[i] { }
      }
    }
  }

  /**
   * Merging keeps, under a key, the value of the LAST result object that
   * mentions the key.
   */
  lemma {:induction false} MergeLastWins(arr: seq<ErrorMap>, k: string, i: nat)
    requires AllObjects(arr) && i < |arr| && Lookup(arr[i], k).Some?
    requires forall j :: i < j < |arr| ==> Lookup(arr[j], k).None?
    ensures Lookup(MergeAll(arr), k) == Lookup(arr[i], k)
  {
    var n := |arr| - 1;
    var p := arr[..n];
    MergeStep(arr, k);
    if i < n {
      assert Lookup(arr[n], k).None?;
      assert p[i] == arr[i];
      forall j | i < j < |p| ensures Lookup(p[j], k).None? {
        assert p[j] == arr[j];
      }
      MergeLastWins(p, k, i);
    }
  }

  // ---------------------------------------------------------------------------
  // Post-processing: drop passed keys, keep only failed rules
  // ---------------------------------------------------------------------------

  /** `rs.filter(fr => fr.result === false)`. */
  function Failures(rs: seq<RuleResult>): (r: seq<RuleResult>)
    ensures |r| <= |rs|
    ensures forall i :: 0 <= i < |r| ==> !r[i].result
  {
    if rs == [] then []
    else if !rs[0].result then [rs[0]] + Failures(rs[1..])
    else Failures(rs[1..])
  }

  /** Exactly the failed rules are kept. */
  lemma {:induction false} FailuresMembers(rs: seq<RuleResult>)
    ensures forall x :: x in Failures(rs) <==> x in rs && !x.result
  {
    if rs != [] {
      FailuresMembers(rs[1..]);
      assert rs == [rs[0]] + rs[1..];
    }
  }

  /** A single rule is kept iff it failed; a rule in front is kept in front. */
  lemma FailuresCons(x: RuleResult, rest: seq<RuleResult>)
    ensures Failures([x]) == if x.result then [] else [x]
    ensures Failures([x] + rest) == (if x.result then [] else [x]) + Failures(rest)
  {
  }

  /** Filtering keeps the order of the rules: it distributes over concatenation. */
  lemma {:induction false} FailuresAppend(a: seq<RuleResult>, b: seq<RuleResult>)
    ensures Failures(a + b) == Failures(a) + Failures(b)
  {
    if a == [] {
      assert a + b == b;
    } else {
      var x, rest := a[0], a[1..];
      assert a == [x] + rest;
      assert a + b == [x] + (rest + b);
      FailuresAppend(rest, b);
      FailuresCons(x, rest + b);
      FailuresCons(x, rest);
    }
  }

  /** The first failure kept is the first rule that failed. */
  lemma {:induction false} FailuresFirst(rs: seq<RuleResult>, i: nat)
    requires i < |rs| && !rs[i].result && forall j :: 0 <= j < i ==> rs[j].result
    ensures Failures(rs) != [] && Failures(rs)[0] == rs[i]
  {
    if i > 0 {
      var rest := rs[1..];
      assert rest[i - 1] == rs[i];
      assert forall j :: 0 <= j < i - 1 ==> rest[j] == rs[j + 1];
      FailuresFirst(rest, i - 1);
    }
  }

  /**
   * What the `forEach` over `Object.keys(r)` leaves: keys whose value is
   * `true` are deleted, every other key keeps its failed rules only.
   */
  function Cleaned(r: ErrorMap): (c: ErrorMap)
    ensures |c| <= |r|
    ensures forall i :: 0 <= i < |c| ==>
              c[i].1.Rules? && forall j :: 0 <= j < |c[i].1.results| ==> !c[i].1.results[j].result
  {
    if r == [] then []
    else
      var rest := Cleaned(r[1..]);
      match r[0].1
      case Passed => rest
      case Rules(rs) => [(r[0].0, Rules(Failures(rs)))] + rest
  }

  /** The entry `Cleaned` leaves for a key that had entry `e`. */
  function Kept(e: Option<Entry>): Option<Entry>
  {
    match e
    case None => None
    case Some(Passed) => None
    case Some(Rules(rs)) => Some(Rules(Failures(rs)))
  }

  lemma {:induction false} CleanedKeys(r: ErrorMap)
    ensures forall k :: k in Keys(Cleaned(r)) ==> k in Keys(r)
    ensures IsObject(r) ==> IsObject(Cleaned(r))
  {
    if r != [] {
      CleanedKeys(r[1..]);
      assert Keys(r) == [r[0].0] + Keys(r[1..]);
      var rest := Cleaned(r[1..]);
      if r[0].1.Rules? {
        var x := (r[0].0, Rules(Failures(r[0].1.results)));
        KeysAppend([x], rest);
        if IsObject(r) {
          assert r[0].0 !in Keys(r[1..]);
          IsObjectKeys(rest);
          IsObjectKeys([x] + rest);
        }
      }
    }
  }

  lemma {:induction false} CleanedAppend(a: ErrorMap, b: ErrorMap)
    ensures Cleaned(a + b) == Cleaned(a) + Cleaned(b)
  {
    if a != [] {
      assert (a + b)[0] == a[0];
      assert (a + b)[1..] == a[1..] + b;
      CleanedAppend(a[1..], b);
    } else {
      assert a + b == b;
    }
  }

  /** A key survives cleaning iff its entry was a rule list; the list keeps the failed rules. */
  lemma {:induction false} CleanedLookup(r: ErrorMap, k: string)
    requires IsObject(r)
    ensures Lookup(Cleaned(r), k) == Kept(Lookup(r, k))
  {
    if r != [] {
      var rest := r[1..];
      assert r == [r[0]] + rest;
      assert IsObject(rest);
      CleanedLookup(rest, k);
      LookupCons(r[0], rest, k);
      if r[0].1.Rules? {
        LookupCons((r[0].0, Rules(Failures(r[0].1.results))), Cleaned(rest), k);
      }
      if r[0].0 == k {
        assert Keys(r) == [r[0].0] + Keys(rest);
        assert k !in Keys(rest);
      }
    }
  }

  /** The cleaned object is empty iff every key said `true`. */
  lemma {:induction false} CleanedEmpty(r: ErrorMap)
    ensures Cleaned(r) == [] <==> AllPassed(r)
  {
    if r != [] {
      CleanedEmpty(r[1..]);
      assert forall i :: 1 <= i < |r| ==> r[i] == r[1..][i - 1];
    }
  }

  /** Index of the first key whose entry is a rule list. */
  function FirstRulesIndex(r: ErrorMap): (j: Option<nat>)
    ensures j.None? <==> forall i :: 0 <= i < |r| ==> r[i].1 == Passed
    ensures j.Some? ==> j.value < |r| && r[j.value].1.Rules? &&
                        forall i :: 0 <= i < j.value ==> r[i].1 == Passed
  {
    if r == [] then None
    else if r[0].1.Rules? then Some(0)
    else
      match FirstRulesIndex(r[1..])
      case None => None
      case Some(j) => Some(j + 1)
  }

  /** The first key left after cleaning is the first key that had a rule list. */
  lemma {:induction false} CleanedHead(r: ErrorMap)
    requires Cleaned(r) != []
    ensures FirstRulesIndex(r).Some?
    ensures Cleaned(r)[0] == (r[FirstRulesIndex(r).value].0,
                              Rules(Failures(r[FirstRulesIndex(r).value].1.results)))
  {
    if r[0].1 == Passed {
      CleanedHead(r[1..]);
    }
  }

  lemma DeleteAbsent(m: ErrorMap, k: string)
    requires k !in Keys(m)
    ensures Delete(m, k) == m
  {
    if m != [] {
      assert Keys(m) == [m[0].0] + Keys(m[1..]);
      DeleteAbsent(m[1..], k);
    }
  }

  lemma {:induction false} DeleteAppend(a: ErrorMap, b: ErrorMap, k: string)
    ensures Delete(a + b, k) == Delete(a, k) + Delete(b, k)
  {
    if a != [] {
      assert (a + b)[1..] == a[1..] + b;
      DeleteAppend(a[1..], b, k);
    } else {
      assert a + b == b;
    }
  }

  lemma DeleteSplit(a: ErrorMap, x: (string, Entry), b: ErrorMap)
    requires x.0 !in Keys(a) && x.0 !in Keys(b)
    ensures Delete(a + [x] + b, x.0) == a + b
  {
    var k := x.0;
    DeleteAppend(a + [x], b, k);
    DeleteAppend(a, [x], k);
    DeleteAbsent(a, k);
    DeleteAbsent(b, k);
    assert [x][1..] == [];
    assert Delete([x], k) == Delete([], k) == [];
    assert Delete(a + [x], k) == a;
  }

  /** The key of an entry no earlier entry has is found at that entry. */
  lemma MiddleIndex(a: ErrorMap, x: (string, Entry), b: ErrorMap)
    requires x.0 !in Keys(a)
    ensures x.0 in Keys(a + [x] + b) && IndexOf(Keys(a + [x] + b), x.0) == |a|
  {
    var ks := Keys(a + [x] + b);
    assert ks[|a|] == x.0;
    forall j | 0 <= j < |a| ensures ks[j] != x.0 {
      assert ks[j] == a[j].0 == Keys(a)[j];
    }
  }

  lemma UpdateMiddle(a: ErrorMap, x: (string, Entry), b: ErrorMap, y: (string, Entry))
    ensures (a + [x] + b)[|a| := y] == a + [y] + b
  {
    var r, want := (a + [x] + b)[|a| := y], a + [y] + b;
    assert |r| == |want|;
    forall j | 0 <= j < |r| ensures r[j] == want[j] {
      if j < |a| {
        assert r[j] == a[j];
      } else if j > |a| {
        assert r[j] == b[j - |a| - 1];
      }
    }
  }

  lemma PutSplit(a: ErrorMap, x: (string, Entry), b: ErrorMap, v: Entry)
    requires x.0 !in Keys(a)
    ensures Put(a + [x] + b, x.0, v) == a + [(x.0, v)] + b
  {
    MiddleIndex(a, x, b);
    UpdateMiddle(a, x, b, (x.0, v));
  }

  /**
   * The in-place post-processing of `validate`: a snapshot of the keys is
   * walked in order, `delete r[key]` for `true`, `r[key] = r[key].filter(...)`
   * otherwise.
   */
  method CleanInPlace(r0: ErrorMap) returns (r: ErrorMap)
    requires IsObject(r0)
    ensures r == Cleaned(r0)
  {
    var keys := Keys(r0);
    r := r0;
    var i := 0;
    assert r0[..0] == [] && r0[0..] == r0;
    while i < |keys|
      invariant 0 <= i <= |keys|
      invariant r == Cleaned(r0[..i]) + r0[i..]
      decreases |keys| - i
    {
      var key := keys[i];
      assert key == r0[i].0;
      CleanStep(r0, i);
      var cur := Lookup(r, key).value;
      if cur == Passed {
        r := Delete(r, key);
      } else {
        r := Put(r, key, Rules(Failures(cur.results)));
      }
      i := i + 1;
    }
    assert r0[..i] == r0;
  }

  /** One step of `CleanInPlace`: the current key sits between the done and the pending part. */
  lemma CleanStep(r0: ErrorMap, i: nat)
    requires IsObject(r0) && i < |r0|
    ensures var r, x := Cleaned(r0[..i]) + r0[i..], r0[i];
            && Lookup(r, x.0) == Some(x.1)
            && (x.1 == Passed ==> Delete(r, x.0) == Cleaned(r0[..i + 1]) + r0[i + 1..])
            && (x.1.Rules? ==> Put(r, x.0, Rules(Failures(x.1.results))) == Cleaned(r0[..i + 1]) + r0[i + 1..])
  {
    var done, x, rest := Cleaned(r0[..i]), r0[i], r0[i + 1..];
    var r := Cleaned(r0[..i]) + r0[i..];
    var next := Cleaned(r0[..i + 1]) + r0[i + 1..];
    SplitParts(r0, i);
    assert r == done + [x] + rest;
    SplitKeys(r0, i);
    LookupMiddle(done, x, rest);
    if x.1 == Passed {
      assert next == done + rest;
      DeleteSplit(done, x, rest);
    } else {
      assert next == done + [(x.0, Rules(Failures(x.1.results)))] + rest;
      PutSplit(done, x, rest, Rules(Failures(x.1.results)));
    }
  }

  lemma SplitParts(r0: ErrorMap, i: nat)
    requires i < |r0|
    ensures Cleaned(r0[..i]) + r0[i..] == Cleaned(r0[..i]) + [r0[i]] + r0[i + 1..]
    ensures Cleaned(r0[..i + 1]) + r0[i + 1..] ==
            if r0[i].1 == Passed then Cleaned(r0[..i]) + r0[i + 1..]
            else Cleaned(r0[..i]) + [(r0[i].0, Rules(Failures(r0[i].1.results)))] + r0[i + 1..]
  {
    assert r0[i..] == [r0[i]] + r0[i + 1..];
    CleanedSnoc(r0, i);
    var x := r0[i];
    assert [x][1..] == [];
    assert Cleaned([x]) == if x.1 == Passed then [] else [(x.0, Rules(Failures(x.1.results)))];
  }

  lemma SplitKeys(r0: ErrorMap, i: nat)
    requires IsObject(r0) && i < |r0|
    ensures r0[i].0 !in Keys(Cleaned(r0[..i])) && r0[i].0 !in Keys(r0[i + 1..])
  {
    CleanedKeys(r0[..i]);
    assert r0[i].0 !in Keys(r0[..i]);
  }

  lemma CleanedSnoc(r0: ErrorMap, i: nat)
    requires i < |r0|
    ensures Cleaned(r0[..i + 1]) == Cleaned(r0[..i]) + Cleaned([r0[i]])
  {
    assert r0[..i + 1] == r0[..i] + [r0[i]];
    CleanedAppend(r0[..i], [r0[i]]);
  }

  lemma LookupMiddle(a: ErrorMap, x: (string, Entry), b: ErrorMap)
    requires x.0 !in Keys(a)
    ensures Lookup(a + [x] + b, x.0) == Some(x.1)
  {
    MiddleIndex(a, x, b);
  }

  // ---------------------------------------------------------------------------
  // The resolved value of `validate`
  // ---------------------------------------------------------------------------

  /** Every key of `r` says `true`. */
  predicate AllPassed(r: ErrorMap)
  {
    forall i :: 0 <= i < |r| ==> r[i].1 == Passed
  }

  /** `isEmpty(r) ? true : r` after merging and cleaning the resolved results. */
  function Aggregate(outcomes: seq<seq<ErrorMap>>): (r: FormValidateResult)
    ensures r.Errors? ==> r.errors != [] && IsObject(r.errors)
    ensures r.Errors? ==> forall i :: 0 <= i < |r.errors| ==>
              r.errors[i].1.Rules? && forall j :: 0 <= j < |r.errors[i].1.results| ==> !r.errors[i].1.results[j].result
  {
    MergeIsObject(Flatten(outcomes));
    CleanedKeys(MergeAll(Flatten(outcomes)));
    var c := Cleaned(MergeAll(Flatten(outcomes)));
    if c == [] then AllValid else Errors(c)
  }

  /** The `.then` callback of `validate`, on the already resolved per-item results. */
  method AggregateResults(outcomes: seq<seq<ErrorMap>>) returns (res: FormValidateResult)
    ensures res == Aggregate(outcomes)
    ensures res.Errors? ==> res.errors != [] && IsObject(res.errors)
  {
    var r := MergeAll(Flatten(outcomes));
    MergeIsObject(Flatten(outcomes));
    CleanedKeys(r);
    r := CleanInPlace(r);
    if r == [] {
      res := AllValid;
    } else {
      res := Errors(r);
    }
  }

  /**
   * Validation passes iff, under every key, the merged value is `true`;
   * otherwise the error object keeps every key whose merged value is a rule
   * list, with its failed rules only (possibly none).
   */
  lemma AggregateMeaning(outcomes: seq<seq<ErrorMap>>, k: string)
    ensures Aggregate(outcomes) == AllValid <==> AllPassed(MergeAll(Flatten(outcomes)))
    ensures Aggregate(outcomes).Errors? ==>
              Lookup(Aggregate(outcomes).errors, k) == Kept(Lookup(MergeAll(Flatten(outcomes)), k))
  {
    var m := MergeAll(Flatten(outcomes));
    MergeIsObject(Flatten(outcomes));
    CleanedEmpty(m);
    CleanedLookup(m, k);
  }

  // ---------------------------------------------------------------------------
  // getFirstError
  // ---------------------------------------------------------------------------

  /**
   * `getFirstError`: nothing for `true`, otherwise the message of the first
   * rule under the first key (nothing when that list is empty). The caller
   * only ever passes what `validate` resolved to, never an empty object.
   */
  function FirstError(r: FormValidateResult): (msg: Option<string>)
    requires r.Errors? ==> r.errors != []
    ensures r == AllValid ==> msg == None
    ensures msg.Some? ==> r.Errors? && r.errors[0].1.Rules? &&
                          r.errors[0].1.results != [] && msg.value == r.errors[0].1.results[0].message
    ensures r.Errors? && r.errors[0].1.Rules? && r.errors[0].1.results != [] ==>
              msg == Some(r.errors[0].1.results[0].message)
  {
    match r
    case AllValid => None
    case Errors(m) =>
      match m[0].1
      case Passed => None
      case Rules(rs) => if rs == [] then None else Some(rs[0].message)
  }

  /**
   * The first error of an aggregated result is the first failed rule of the
   * first-inserted key whose merged value is a rule list; there is none when
   * validation passed or when that key has no failed rule.
   */
  lemma FirstErrorOfAggregate(outcomes: seq<seq<ErrorMap>>)
    ensures Aggregate(outcomes).Errors? ==> Aggregate(outcomes).errors != []
    ensures var m := MergeAll(Flatten(outcomes));
            FirstError(Aggregate(outcomes)) ==
              match FirstRulesIndex(m)
              case None => None
              case Some(j) =>
                var fs := Failures(m[j].1.results);
                if fs == [] then None else Some(fs[0].message)
  {
    var m := MergeAll(Flatten(outcomes));
    CleanedEmpty(m);
    if Cleaned(m) != [] {
      CleanedHead(m);
    }
  }

  /**
   * A key whose merged rule list has no failure stays in the error object with
   * an empty list, so validation does not pass; when it is the first key
   * holding a rule list, `getFirstError` finds no message.
   */
  lemma PassedRulesKeepKey(outcomes: seq<seq<ErrorMap>>, k: string, rs: seq<RuleResult>)
    requires Lookup(MergeAll(Flatten(outcomes)), k) == Some(Rules(rs)) && Failures(rs) == []
    ensures Aggregate(outcomes).Errors?
    ensures Lookup(Aggregate(outcomes).errors, k) == Some(Rules([]))
    ensures var m := MergeAll(Flatten(outcomes));
            FirstRulesIndex(m).Some? && m[FirstRulesIndex(m).value].0 == k ==>
              FirstError(Aggregate(outcomes)) == None
  {
    var m := MergeAll(Flatten(outcomes));
    MergeIsObject(Flatten(outcomes));
    var j := IndexOf(Keys(m), k);
    assert m[j].1 == Rules(rs);
    AggregateMeaning(outcomes, k);
    FirstErrorOfAggregate(outcomes);
    if FirstRulesIndex(m).Some? && m[FirstRulesIndex(m).value].0 == k {
      LookupAt(m, FirstRulesIndex(m).value);
    }
  }
}
