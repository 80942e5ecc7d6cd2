/** The list operations the source writes with `filter`, `reduce`, `new Set(...)` and `Map`:
    filtering, summing, keeping the first element per key, and counting per key. */
module Seqs {

  /** `xs.filter(p)`. */
  function Filter<T>(xs: seq<T>, p: T -> bool): (ys: seq<T>)
    ensures |ys| <= |xs|
    ensures forall y :: y in ys ==> y in xs && p(y)
  {
    if |xs| == 0 then [] else (if p(xs[0]) then [xs[0]] else []) + Filter(xs[1..], p)
  }

  /** Filtering keeps every element that passes. */
  lemma {:induction false} FilterKeeps<T>(xs: seq<T>, p: T -> bool, x: T)
    requires x in xs && p(x)
    ensures x in Filter(xs, p)
  {
    if xs[0] != x {
      FilterKeeps(xs[1..], p, x);
    }
  }

  lemma {:induction false} FilterAppend<T>(xs: seq<T>, ys: seq<T>, p: T -> bool)
    ensures Filter(xs + ys, p) == Filter(xs, p) + Filter(ys, p)
  {
    if |xs| == 0 {
      assert xs + ys == ys;
    } else {
      assert (xs + ys)[1..] == xs[1..] + ys;
      FilterAppend(xs[1..], ys, p);
    }
  }

  /** One more element at the end, as a loop sees it. */
  lemma FilterSnoc<T>(xs: seq<T>, x: T, p: T -> bool)
    ensures Filter(xs + [x], p) == Filter(xs, p) + (if p(x) then [x] else [])
  {
    FilterAppend(xs, [x], p);
    assert [x][1..] == [];
  }

  /** Two predicates that agree on every element filter alike. */
  lemma {:induction false} FilterCongruent<T>(xs: seq<T>, p: T -> bool, q: T -> bool)
    requires forall i :: 0 <= i < |xs| ==> (p(xs[i]) <==> q(xs[i]))
    ensures Filter(xs, p) == Filter(xs, q)
  {
    if |xs| > 0 {
      FilterCongruent(xs[1..], p, q);
    }
  }

  /** A predicate every element passes keeps them all. */
  lemma {:induction false} FilterAll<T>(xs: seq<T>, p: T -> bool)
    requires forall i :: 0 <= i < |xs| ==> p(xs[i])
    ensures Filter(xs, p) == xs
  {
    if |xs| > 0 {
      FilterAll(xs[1..], p);
      assert xs == [xs[0]] + xs[1..];
    }
  }

  /** A stronger predicate keeps no more elements. */
  lemma {:induction false} FilterMonotone<T>(xs: seq<T>, p: T -> bool, q: T -> bool)
    requires forall i :: 0 <= i < |xs| ==> p(xs[i]) ==> q(xs[i])
    ensures |Filter(xs, p)| <= |Filter(xs, q)|
  {
    if |xs| > 0 {
      FilterMonotone(xs[1..], p, q);
    }
  }

  /** `xs.map(f)`. */
  function Map<T, U>(xs: seq<T>, f: T -> U): (ys: seq<U>)
    ensures |ys| == |xs|
    ensures forall i :: 0 <= i < |xs| ==> ys[i] == f(xs[i])
  {
    seq(|xs|, i requires 0 <= i < |xs| => f(xs[i]))
  }

  /** A prefix one longer is the prefix and the next element. */
  lemma TakeSnoc<T>(xs: seq<T>, i: nat)
    requires i < |xs|
    ensures xs[..i + 1] == xs[..i] + [xs[i]]
  {
  }

  lemma MapSnoc<T, U>(xs: seq<T>, x: T, f: T -> U)
    ensures Map(xs + [x], f) == Map(xs, f) + [f(x)]
  {
  }

  /** `xs.reduce((s, x) => s + f(x), 0)`. */
  function Sum<T>(xs: seq<T>, f: T -> real): real {
    if |xs| == 0 then 0.0 else f(xs[0]) + Sum(xs[1..], f)
  }

  lemma {:induction false} SumAppend<T>(xs: seq<T>, ys: seq<T>, f: T -> real)
    ensures Sum(xs + ys, f) == Sum(xs, f) + Sum(ys, f)
  {
    if |xs| == 0 {
      assert xs + ys == ys;
    } else {
      assert (xs + ys)[1..] == xs[1..] + ys;
      SumAppend(xs[1..], ys, f);
    }
  }

  lemma SumSnoc<T>(xs: seq<T>, x: T, f: T -> real)
    ensures Sum(xs + [x], f) == Sum(xs, f) + f(x)
  {
    SumAppend(xs, [x], f);
    assert [x][1..] == [];
  }

  /** A sum of non-negative terms is non-negative. */
  lemma {:induction false} SumNonNegative<T>(xs: seq<T>, f: T -> real)
    requires forall i :: 0 <= i < |xs| ==> f(xs[i]) >= 0.0
    ensures Sum(xs, f) >= 0.0
  {
    if |xs| > 0 {
      SumNonNegative(xs[1..], f);
    }
  }

  /** A sum of positive terms is positive exactly when there is a term. */
  lemma {:induction false} SumPositive<T>(xs: seq<T>, f: T -> real)
    requires forall i :: 0 <= i < |xs| ==> f(xs[i]) > 0.0
    ensures Sum(xs, f) > 0.0 <==> |xs| > 0
  {
    if |xs| > 0 {
      SumNonNegative(xs[1..], f);
    }
  }

  /** A sum of terms each at most `c` is at most `c` times their number. */
  lemma {:induction false} SumAtMost<T>(xs: seq<T>, f: T -> real, c: real)
    requires forall i :: 0 <= i < |xs| ==> f(xs[i]) <= c
    ensures Sum(xs, f) <= c * |xs| as real
  {
    if |xs| > 0 {
      SumAtMost(xs[1..], f, c);
      assert c * |xs| as real == c + c * |xs[1..]| as real;
    }
  }

  /** Two term functions that agree on every element sum alike. */
  lemma {:induction false} SumCongruent<T>(xs: seq<T>, f: T -> real, g: T -> real)
    requires forall i :: 0 <= i < |xs| ==> f(xs[i]) == g(xs[i])
    ensures Sum(xs, f) == Sum(xs, g)
  {
    if |xs| > 0 {
      SumCongruent(xs[1..], f, g);
    }
  }

  /** Summing over a filter gives the same as summing every element with a zero for those left out. */
  lemma {:induction false} SumFilter<T>(xs: seq<T>, p: T -> bool, f: T -> real, g: T -> real)
    requires forall i :: 0 <= i < |xs| ==> g(xs[i]) == (if p(xs[i]) then f(xs[i]) else 0.0)
    ensures Sum(Filter(xs, p), f) == Sum(xs, g)
  {
    if |xs| > 0 {
      SumFilter(xs[1..], p, f, g);
      assert g(xs[0]) == (if p(xs[0]) then f(xs[0]) else 0.0);
      if p(xs[0]) {
        assert Filter(xs, p) == [xs[0]] + Filter(xs[1..], p);
        SumAppend([xs[0]], Filter(xs[1..], p), f);
        assert [xs[0]][1..] == [];
      } else {
        assert Filter(xs, p) == Filter(xs[1..], p);
      }
    }
  }

  /** `xs.reduce((s, x) => s + f(x), 0)` over natural numbers. */
  function SumNat<T>(xs: seq<T>, f: T -> nat): nat {
    if |xs| == 0 then 0 else f(xs[0]) + SumNat(xs[1..], f)
  }

  // ----- Keeping the first element per key -----

  /** Some element of `xs` has key `k`. */
  predicate KeyIn<T, K(==)>(xs: seq<T>, key: T -> K, k: K) {
    exists i :: 0 <= i < |xs| && key(xs[i]) == k
  }

  /** No two elements of `xs` share a key. */
  predicate DistinctKeys<T, K(==)>(xs: seq<T>, key: T -> K) {
    forall i, j :: 0 <= i < j < |xs| ==> key(xs[i]) != key(xs[j])
  }

  /** The elements of `xs` in order, each dropped when an earlier kept one has its key: the loop
      `if (seen.has(k)) skip; else { seen.add(k); out.push(x) }`. */
  function KeepFirst<T, K(==)>(xs: seq<T>, key: T -> K): (r: seq<T>)
    ensures |r| <= |xs|
    decreases |xs|
  {
    if |xs| == 0 then []
    else
      var prev := KeepFirst(xs[..|xs| - 1], key);
      if KeyIn(prev, key, key(xs[|xs| - 1])) then prev else prev + [xs[|xs| - 1]]
  }

  /** Every kept element is an element of `xs`. */
  lemma {:induction false} KeepFirstMembers<T, K>(xs: seq<T>, key: T -> K)
    ensures forall x :: x in KeepFirst(xs, key) ==> x in xs
    decreases |xs|
  {
    if |xs| > 0 {
      var init := xs[..|xs| - 1];
      KeepFirstMembers(init, key);
      assert forall x :: x in init ==> x in xs;
    }
  }

  /** One more element is kept exactly when no kept one has its key. */
  lemma KeepFirstSnoc<T, K>(xs: seq<T>, x: T, key: T -> K)
    ensures KeepFirst(xs + [x], key)
         == if KeyIn(KeepFirst(xs, key), key, key(x)) then KeepFirst(xs, key) else KeepFirst(xs, key) + [x]
  {
    assert (xs + [x])[..|xs|] == xs;
  }

  /** The keys of the kept elements after one more is appended. */
  lemma KeyInSnoc<T, K>(xs: seq<T>, x: T, key: T -> K)
    ensures forall k :: KeyIn(xs + [x], key, k) <==> KeyIn(xs, key, k) || k == key(x)
  {
    forall k | KeyIn(xs + [x], key, k) ensures KeyIn(xs, key, k) || k == key(x) {
      var i :| 0 <= i < |xs + [x]| && key((xs + [x])[i]) == k;
      if i < |xs| {
        assert key(xs[i]) == k;
      }
    }
    forall k | KeyIn(xs, key, k) ensures KeyIn(xs + [x], key, k) {
      var i :| 0 <= i < |xs| && key(xs[i]) == k;
      assert (xs + [x])[i] == xs[i];
    }
    assert (xs + [x])[|xs|] == x;
  }

  /** The set of the keys of `xs`. */
  function KeySet<T, K>(xs: seq<T>, key: T -> K): set<K>
    decreases |xs|
  {
    if |xs| == 0 then {} else KeySet(xs[..|xs| - 1], key) + {key(xs[|xs| - 1])}
  }

  lemma {:induction false} KeySetIff<T, K>(xs: seq<T>, key: T -> K, k: K)
    ensures k in KeySet(xs, key) <==> KeyIn(xs, key, k)
    decreases |xs|
  {
    if |xs| > 0 {
      var init := xs[..|xs| - 1];
      KeySetIff(init, key, k);
      assert init + [xs[|xs| - 1]] == xs;
      KeyInSnoc(init, xs[|xs| - 1], key);
    }
  }

  /** Filtering keeps keys distinct. */
  lemma {:induction false} FilterDistinctKeys<T, K>(xs: seq<T>, p: T -> bool, key: T -> K)
    requires DistinctKeys(xs, key)
    ensures DistinctKeys(Filter(xs, p), key)
    decreases |xs|
  {
    if |xs| > 0 {
      var tail := xs[1..];
      assert DistinctKeys(tail, key) by {
        forall i, j | 0 <= i < j < |tail| ensures key(tail[i]) != key(tail[j]) {
          assert tail[i] == xs[i + 1] && tail[j] == xs[j + 1];
        }
      }
      FilterDistinctKeys(tail, p, key);
      var ft := Filter(tail, p);
      if p(xs[0]) {
        var f := Filter(xs, p);
        assert f == [xs[0]] + ft;
        forall j | 0 < j < |f| ensures key(f[0]) != key(f[j]) {
          assert f[j] == ft[j - 1];
          assert ft[j - 1] in ft;
          var m :| 0 <= m < |tail| && tail[m] == ft[j - 1];
          assert tail[m] == xs[m + 1];
        }
        forall i, j | 0 <= i < j < |f| ensures key(f[i]) != key(f[j]) {
          if i > 0 {
            assert f[i] == ft[i - 1] && f[j] == ft[j - 1];
          }
        }
      }
    }
  }

  /** There are at most as many keys as elements. */
  lemma {:induction false} KeySetSize<T, K>(xs: seq<T>, key: T -> K)
    ensures |KeySet(xs, key)| <= |xs|
    decreases |xs|
  {
    if |xs| > 0 {
      KeySetSize(xs[..|xs| - 1], key);
    }
  }

  /** Elements with pairwise distinct keys have as many keys as elements. */
  lemma {:induction false} KeySetDistinct<T, K>(xs: seq<T>, key: T -> K)
    requires DistinctKeys(xs, key)
    ensures |KeySet(xs, key)| == |xs|
    decreases |xs|
  {
    if |xs| > 0 {
      var init := xs[..|xs| - 1];
      var last := xs[|xs| - 1];
      assert DistinctKeys(init, key) by {
        forall i, j | 0 <= i < j < |init| ensures key(init[i]) != key(init[j]) {
          assert init[i] == xs[i] && init[j] == xs[j];
        }
      }
      KeySetDistinct(init, key);
      KeySetIff(init, key, key(last));
      assert !KeyIn(init, key, key(last)) by {
        forall i | 0 <= i < |init| ensures key(init[i]) != key(last) {
          assert init[i] == xs[i];
        }
      }
    }
  }

  /** Elements that all have the key `k` have the one key `k`. */
  lemma {:induction false} KeySetConstant<T, K>(xs: seq<T>, key: T -> K, k: K)
    requires |xs| > 0
    requires forall i :: 0 <= i < |xs| ==> key(xs[i]) == k
    ensures KeySet(xs, key) == {k}
    decreases |xs|
  {
    if |xs| > 1 {
      var init := xs[..|xs| - 1];
      assert forall i :: 0 <= i < |init| ==> init[i] == xs[i];
      KeySetConstant(init, key, k);
    }
  }

  /** When every element has key `k` and one of them passes, the passing ones have the keys `{k}`. */
  lemma FilteredKeySetConstant<T, K>(xs: seq<T>, p: T -> bool, key: T -> K, k: K, x: T)
    requires x in xs && p(x)
    requires forall y :: y in xs ==> key(y) == k
    ensures KeySet(Filter(xs, p), key) == {k}
  {
    var f := Filter(xs, p);
    FilterKeeps(xs, p, x);
    forall j | 0 <= j < |f| ensures key(f[j]) == k {
      assert f[j] in xs;
    }
    KeySetConstant(f, key, k);
  }

  /** When every element has key `k`, each test that some element passes keeps the keys `{k}`. */
  lemma FilteredKeySetsConstant<T, K>(xs: seq<T>, p: T -> bool, q: T -> bool, key: T -> K, k: K)
    requires forall y :: y in xs ==> key(y) == k
    requires exists i :: 0 <= i < |xs| && p(xs[i])
    ensures KeySet(Filter(xs, p), key) == {k}
    ensures (exists i :: 0 <= i < |xs| && q(xs[i])) ==> KeySet(Filter(xs, q), key) == {k}
  {
    var i :| 0 <= i < |xs| && p(xs[i]);
    FilteredKeySetConstant(xs, p, key, k, xs[i]);
    if exists j :: 0 <= j < |xs| && q(xs[j]) {
      var j :| 0 <= j < |xs| && q(xs[j]);
      FilteredKeySetConstant(xs, q, key, k, xs[j]);
    }
  }

  /** An element that passes puts its key among the passing ones' keys. */
  lemma FilteredKeySetHas<T, K>(xs: seq<T>, p: T -> bool, key: T -> K, x: T)
    requires x in xs && p(x)
    ensures key(x) in KeySet(Filter(xs, p), key) && |KeySet(Filter(xs, p), key)| > 0
  {
    var f := Filter(xs, p);
    FilterKeeps(xs, p, x);
    var j :| 0 <= j < |f| && f[j] == x;
    KeySetIff(f, key, key(x));
  }

  lemma {:induction false} SubsetSize<K>(a: set<K>, b: set<K>)
    requires a <= b
    ensures |a| <= |b|
    decreases |a|
  {
    if a != {} {
      var x :| x in a;
      SubsetSize(a - {x}, b - {x});
    }
  }

  /** Filtering by a stronger test keeps fewer keys. */
  lemma KeySetFilterMonotone<T, K>(xs: seq<T>, p: T -> bool, q: T -> bool, key: T -> K)
    requires forall i :: 0 <= i < |xs| && p(xs[i]) ==> q(xs[i])
    ensures KeySet(Filter(xs, p), key) <= KeySet(Filter(xs, q), key)
    ensures |KeySet(Filter(xs, p), key)| <= |KeySet(Filter(xs, q), key)|
  {
    var fp, fq := Filter(xs, p), Filter(xs, q);
    forall k | k in KeySet(fp, key) ensures k in KeySet(fq, key) {
      KeySetIff(fp, key, k);
      var i :| 0 <= i < |fp| && key(fp[i]) == k;
      var y := fp[i];
      assert y in fp;
      var j :| 0 <= j < |xs| && xs[j] == y;
      FilterKeeps(xs, q, y);
      var m :| 0 <= m < |fq| && fq[m] == y;
      KeySetIff(fq, key, k);
    }
    SubsetSize(KeySet(fp, key), KeySet(fq, key));
  }

  /** One step of the loop `if (p(x) && !seen.has(key(x))) { seen.add(key(x)); out.push(x) }`
      keeps `out` equal to the first occurrences of the accepted elements so far and `seen` equal to
      their keys. */
  lemma KeepFirstStep<T, K>(before: seq<T>, x: T, p: T -> bool, key: T -> K, ok: bool, k: K,
                            out: seq<T>, seen: set<K>, out': seq<T>, seen': set<K>)
    requires out == KeepFirst(Filter(before, p), key)
    requires seen == KeySet(out, key)
    requires ok == p(x) && k == key(x)
    requires out' == (if ok && k !in seen then out + [x] else out)
    requires seen' == (if ok && k !in seen then seen + {k} else seen)
    ensures out' == KeepFirst(Filter(before + [x], p), key)
    ensures seen' == KeySet(out', key)
  {
    FilterSnoc(before, x, p);
    var acc := Filter(before, p);
    if p(x) {
      KeepFirstSnoc(acc, x, key);
      KeySetIff(out, key, key(x));
    } else {
      assert Filter(before + [x], p) == acc + [] == acc;
    }
    if p(x) && key(x) !in seen {
      assert (out + [x])[..|out|] == out;
    }
  }

  /** The element at index `i` is the first of `xs` with its key. */
  predicate FirstOfKey<T, K(==)>(xs: seq<T>, key: T -> K, i: nat)
    requires i < |xs|
  {
    forall k :: 0 <= k < i ==> key(xs[k]) != key(xs[i])
  }

  /** The elements of `xs` that are the first with their key, in order: an independent statement of
      what `KeepFirst` keeps. */
  function FirstOccurrences<T, K(==)>(xs: seq<T>, key: T -> K): seq<T>
    decreases |xs|
  {
    if |xs| == 0 then []
    else FirstOccurrences(xs[..|xs| - 1], key) + (if FirstOfKey(xs, key, |xs| - 1) then [xs[|xs| - 1]] else [])
  }

  /** `ys` can be obtained from `xs` by deleting elements. */
  predicate IsSubsequence<T(==)>(ys: seq<T>, xs: seq<T>)
    decreases |xs|
  {
    if |ys| == 0 then true
    else if |xs| == 0 then false
    else if ys[|ys| - 1] == xs[|xs| - 1] then IsSubsequence(ys[..|ys| - 1], xs[..|xs| - 1])
    else IsSubsequence(ys, xs[..|xs| - 1])
  }

  /** The keys kept are the keys of the input. */
  lemma {:induction false} KeepFirstKeys<T, K>(xs: seq<T>, key: T -> K, k: K)
    ensures KeyIn(KeepFirst(xs, key), key, k) <==> KeyIn(xs, key, k)
    decreases |xs|
  {
    if |xs| > 0 {
      var init := xs[..|xs| - 1];
      var prev := KeepFirst(init, key);
      KeepFirstKeys(init, key, k);
      if KeyIn(xs, key, k) {
        var i :| 0 <= i < |xs| && key(xs[i]) == k;
        if i < |xs| - 1 {
          assert key(init[i]) == k;
        }
      }
      if KeyIn(init, key, k) {
        var i :| 0 <= i < |init| && key(init[i]) == k;
        assert key(xs[i]) == k;
      }
      if !KeyIn(prev, key, key(xs[|xs| - 1])) {
        var r := prev + [xs[|xs| - 1]];
        if KeyIn(r, key, k) {
          var i :| 0 <= i < |r| && key(r[i]) == k;
          if i < |prev| {
            assert key(prev[i]) == k;
          }
        }
        if KeyIn(prev, key, k) {
          var i :| 0 <= i < |prev| && key(prev[i]) == k;
          assert key(r[i]) == k;
        }
        assert key(r[|prev|]) == key(xs[|xs| - 1]);
      }
    }
  }

  /** No two kept elements share a key. */
  lemma {:induction false} KeepFirstDistinct<T, K>(xs: seq<T>, key: T -> K)
    ensures DistinctKeys(KeepFirst(xs, key), key)
    decreases |xs|
  {
    if |xs| > 0 {
      var prev := KeepFirst(xs[..|xs| - 1], key);
      KeepFirstDistinct(xs[..|xs| - 1], key);
      var x := xs[|xs| - 1];
      if !KeyIn(prev, key, key(x)) {
        var r := prev + [x];
        forall i, j | 0 <= i < j < |r| ensures key(r[i]) != key(r[j]) {
          if j == |prev| {
            assert key(prev[i]) != key(x);
          } else {
            assert key(prev[i]) != key(prev[j]);
          }
        }
      }
    }
  }

  /** Keeping the first element per key keeps exactly the first occurrences. */
  lemma {:induction false} KeepFirstIsFirstOccurrences<T, K>(xs: seq<T>, key: T -> K)
    ensures KeepFirst(xs, key) == FirstOccurrences(xs, key)
    decreases |xs|
  {
    if |xs| > 0 {
      var init := xs[..|xs| - 1];
      var x := xs[|xs| - 1];
      KeepFirstIsFirstOccurrences(init, key);
      KeepFirstKeys(init, key, key(x));
      if FirstOfKey(xs, key, |xs| - 1) {
        assert !KeyIn(init, key, key(x)) by {
          forall i | 0 <= i < |init| ensures key(init[i]) != key(x) {
            assert key(xs[i]) != key(x);
          }
        }
      } else {
        var i :| 0 <= i < |xs| - 1 && key(xs[i]) == key(x);
        assert key(init[i]) == key(x);
      }
    }
  }

  /** What is kept is a subsequence of the input: order is preserved and nothing is invented. */
  lemma {:induction false} KeepFirstSubsequence<T, K>(xs: seq<T>, key: T -> K)
    ensures IsSubsequence(KeepFirst(xs, key), xs)
    decreases |xs|
  {
    if |xs| > 0 {
      var init := xs[..|xs| - 1];
      var prev := KeepFirst(init, key);
      KeepFirstSubsequence(init, key);
      if KeyIn(prev, key, key(xs[|xs| - 1])) {
        SubsequenceExtend(prev, init, xs[|xs| - 1]);
        assert init + [xs[|xs| - 1]] == xs;
      } else {
        var r := prev + [xs[|xs| - 1]];
        assert r[..|r| - 1] == prev;
      }
    }
  }

  /** A subsequence stays one when the sequence grows at the end. */
  lemma {:induction false} SubsequenceExtend<T>(ys: seq<T>, xs: seq<T>, x: T)
    requires IsSubsequence(ys, xs)
    ensures IsSubsequence(ys, xs + [x])
    decreases |xs|, 1
  {
    var xs' := xs + [x];
    assert xs'[..|xs'| - 1] == xs;
    if |ys| > 0 && ys[|ys| - 1] == x {
      SubsequenceWeaken(ys, xs);
    }
  }

  /** Dropping the last element of a subsequence leaves a subsequence. */
  lemma {:induction false} SubsequenceWeaken<T>(ys: seq<T>, xs: seq<T>)
    requires |ys| > 0 && IsSubsequence(ys, xs)
    ensures IsSubsequence(ys[..|ys| - 1], xs)
    decreases |xs|, 0
  {
    var init := ys[..|ys| - 1];
    if ys[|ys| - 1] == xs[|xs| - 1] {
      SubsequenceStep(init, xs[..|xs| - 1], xs);
    } else {
      SubsequenceWeaken(ys, xs[..|xs| - 1]);
      SubsequenceStep(init, xs[..|xs| - 1], xs);
    }
  }

  lemma SubsequenceStep<T>(ys: seq<T>, init: seq<T>, xs: seq<T>)
    requires |xs| > 0 && init == xs[..|xs| - 1]
    requires IsSubsequence(ys, init)
    ensures IsSubsequence(ys, xs)
    decreases |init|, 2
  {
    SubsequenceExtend(ys, init, xs[|xs| - 1]);
    assert init + [xs[|xs| - 1]] == xs;
  }

  /** A filter is a subsequence. */
  lemma {:induction false} FilterSubsequence<T>(xs: seq<T>, p: T -> bool)
    ensures IsSubsequence(Filter(xs, p), xs)
    decreases |xs|
  {
    if |xs| > 0 {
      var init := xs[..|xs| - 1];
      var x := xs[|xs| - 1];
      assert init + [x] == xs;
      FilterSnoc(init, x, p);
      FilterSubsequence(init, p);
      if p(x) {
        var r := Filter(init, p) + [x];
        assert r[..|r| - 1] == Filter(init, p);
      } else {
        assert Filter(xs, p) == Filter(init, p);
        SubsequenceExtend(Filter(init, p), init, x);
      }
    }
  }

  /** Being a subsequence is transitive. */
  lemma {:induction false} SubsequenceTrans<T>(zs: seq<T>, ys: seq<T>, xs: seq<T>)
    requires IsSubsequence(zs, ys) && IsSubsequence(ys, xs)
    ensures IsSubsequence(zs, xs)
    decreases |xs|
  {
    if |zs| > 0 {
      if ys[|ys| - 1] == xs[|xs| - 1] {
        var ys' := ys[..|ys| - 1];
        if zs[|zs| - 1] == ys[|ys| - 1] {
          SubsequenceTrans(zs[..|zs| - 1], ys', xs[..|xs| - 1]);
        } else {
          SubsequenceTrans(zs, ys', xs[..|xs| - 1]);
          SubsequenceStep(zs, xs[..|xs| - 1], xs);
        }
      } else {
        SubsequenceTrans(zs, ys, xs[..|xs| - 1]);
        SubsequenceStep(zs, xs[..|xs| - 1], xs);
      }
    }
  }

  // ----- Counting per key -----

  /** `xs.filter(x => key(x) === k)`. */
  function WithKey<T, K(==)>(xs: seq<T>, key: T -> K, k: K): (ys: seq<T>)
    ensures |ys| <= |xs|
    ensures forall y :: y in ys ==> y in xs && key(y) == k
  {
    if |xs| == 0 then [] else (if key(xs[0]) == k then [xs[0]] else []) + WithKey(xs[1..], key, k)
  }

  /** How many elements of `xs` have their key among `ks`. */
  function CountIn<T, K(==)>(xs: seq<T>, key: T -> K, ks: seq<K>): nat {
    if |xs| == 0 then 0 else (if key(xs[0]) in ks then 1 else 0) + CountIn(xs[1..], key, ks)
  }

  /** The sizes of the groups of the keys `ks`, added up. */
  function GroupSizes<T, K(==)>(xs: seq<T>, key: T -> K, ks: seq<K>): nat {
    if |ks| == 0 then 0 else |WithKey(xs, key, ks[0])| + GroupSizes(xs, key, ks[1..])
  }

  predicate NoDuplicates<K(==)>(ks: seq<K>) {
    forall i, j :: 0 <= i < j < |ks| ==> ks[i] != ks[j]
  }

  /** How many times `k` occurs in `ks`. */
  function Occurrences<K(==)>(ks: seq<K>, k: K): nat {
    if |ks| == 0 then 0 else (if ks[0] == k then 1 else 0) + Occurrences(ks[1..], k)
  }

  /** One element lies in at most one group. */
  lemma {:induction false} OneGroup<K>(k: K, ks: seq<K>)
    requires NoDuplicates(ks)
    ensures Occurrences(ks, k) == if k in ks then 1 else 0
  {
    if |ks| > 0 {
      assert NoDuplicates(ks[1..]) by {
        forall i, j | 0 <= i < j < |ks[1..]| ensures ks[1..][i] != ks[1..][j] {
          assert ks[i + 1] != ks[j + 1];
        }
      }
      OneGroup(k, ks[1..]);
      if ks[0] == k {
        assert k !in ks[1..] by {
          forall i | 0 <= i < |ks[1..]| ensures ks[1..][i] != k {
            assert ks[i + 1] != ks[0];
          }
        }
      }
    }
  }

  /** Groups of distinct keys partition the elements whose key is among them: the group sizes add
      up to the number of such elements. */
  lemma {:induction false} GroupsPartition<T, K>(xs: seq<T>, key: T -> K, ks: seq<K>)
    requires NoDuplicates(ks)
    ensures GroupSizes(xs, key, ks) == CountIn(xs, key, ks)
    decreases |xs|
  {
    if |xs| == 0 {
      GroupSizesEmpty(xs, key, ks);
    } else {
      GroupSizesHead(xs, key, ks);
      GroupsPartition(xs[1..], key, ks);
      OneGroup(key(xs[0]), ks);
    }
  }

  lemma {:induction false} GroupSizesEmpty<T, K>(xs: seq<T>, key: T -> K, ks: seq<K>)
    requires |xs| == 0
    ensures GroupSizes(xs, key, ks) == 0
  {
    if |ks| > 0 {
      GroupSizesEmpty(xs, key, ks[1..]);
    }
  }

  /** The group sizes split into the first element's share and the rest's. */
  lemma {:induction false} GroupSizesHead<T, K>(xs: seq<T>, key: T -> K, ks: seq<K>)
    requires |xs| > 0
    ensures GroupSizes(xs, key, ks)
         == Occurrences(ks, key(xs[0])) + GroupSizes(xs[1..], key, ks)
  {
    if |ks| > 0 {
      GroupSizesHead(xs, key, ks[1..]);
    }
  }

  /** Counting by a predicate that agrees with membership in `ks` on every element. */
  lemma {:induction false} CountInFilter<T, K>(xs: seq<T>, key: T -> K, ks: seq<K>, p: T -> bool)
    requires forall i :: 0 <= i < |xs| ==> (p(xs[i]) <==> key(xs[i]) in ks)
    ensures CountIn(xs, key, ks) == |Filter(xs, p)|
  {
    if |xs| > 0 {
      CountInFilter(xs[1..], key, ks, p);
    }
  }

  /** The distinct keys of the elements passing `p`, in order of first appearance:
      `Array.from(new Set(xs.filter(p).map(key)))`. */
  function KeysOf<T, K(==)>(xs: seq<T>, p: T -> bool, key: T -> K): seq<K> {
    Map(KeepFirst(Filter(xs, p), key), key)
  }

  /** Those keys are distinct, and are exactly the keys of the elements passing `p`. */
  lemma KeysOfSpec<T, K>(xs: seq<T>, p: T -> bool, key: T -> K)
    ensures NoDuplicates(KeysOf(xs, p, key))
    ensures forall x :: x in xs && p(x) ==> key(x) in KeysOf(xs, p, key)
    ensures forall k :: k in KeysOf(xs, p, key) ==> exists x :: x in xs && p(x) && key(x) == k
  {
    var f := Filter(xs, p);
    var r := KeepFirst(f, key);
    KeepFirstDistinct(f, key);
    forall x | x in xs && p(x) ensures key(x) in KeysOf(xs, p, key) {
      FilterKeeps(xs, p, x);
      var i :| 0 <= i < |f| && f[i] == x;
      assert KeyIn(f, key, key(x));
      KeepFirstKeys(f, key, key(x));
      var j :| 0 <= j < |r| && key(r[j]) == key(x);
      assert KeysOf(xs, p, key)[j] == key(x);
    }
    forall k | k in KeysOf(xs, p, key) ensures exists x :: x in xs && p(x) && key(x) == k {
      var j :| 0 <= j < |r| && key(r[j]) == k;
      KeepFirstKeys(f, key, k);
      var i :| 0 <= i < |f| && key(f[i]) == k;
      assert f[i] in f;
    }
  }
  // ----- Group totals -----

  /** Every element with key `k` is in the group of `k`. */
  lemma {:induction false} WithKeyKeeps<T, K>(xs: seq<T>, key: T -> K, k: K, x: T)
    requires x in xs && key(x) == k
    ensures x in WithKey(xs, key, k)
  {
    if xs[0] != x {
      WithKeyKeeps(xs[1..], key, k, x);
    }
  }

  /** Records that carry the size of each group of `ks` add up to the group sizes. */
  lemma {:induction false} SumNatGroups<T, K, U>(xs: seq<T>, key: T -> K, ks: seq<K>, ys: seq<U>, f: U -> nat)
    requires |ys| == |ks|
    requires forall i :: 0 <= i < |ks| ==> f(ys[i]) == |WithKey(xs, key, ks[i])|
    ensures SumNat(ys, f) == GroupSizes(xs, key, ks)
  {
    if |ks| > 0 {
      SumNatGroups(xs, key, ks[1..], ys[1..], f);
    }
  }

  /** Group sizes over distinct keys that cover every element add up to all the elements. */
  lemma GroupTotal<T, K, U>(xs: seq<T>, key: T -> K, ks: seq<K>, ys: seq<U>, f: U -> nat)
    requires NoDuplicates(ks)
    requires forall i :: 0 <= i < |xs| ==> key(xs[i]) in ks
    requires |ys| == |ks|
    requires forall i :: 0 <= i < |ks| ==> f(ys[i]) == |WithKey(xs, key, ks[i])|
    ensures SumNat(ys, f) == |xs|
  {
    SumNatGroups(xs, key, ks, ys, f);
    GroupsPartition(xs, key, ks);
    var inKeys := (x: T) => key(x) in ks;
    CountInFilter(xs, key, ks, inKeys);
    FilterAll(xs, inKeys);
  }

  /** In a list with distinct keys, the group of a key is its one element, or empty. */
  lemma {:induction false} WithKeyDistinct<T, K>(xs: seq<T>, key: T -> K, k: K)
    requires DistinctKeys(xs, key)
    ensures |WithKey(xs, key, k)| <= 1
    ensures forall i :: 0 <= i < |xs| && key(xs[i]) == k ==> WithKey(xs, key, k) == [xs[i]]
    ensures (forall i :: 0 <= i < |xs| ==> key(xs[i]) != k) ==> WithKey(xs, key, k) == []
  {
    if |xs| > 0 {
      assert DistinctKeys(xs[1..], key) by {
        forall i, j | 0 <= i < j < |xs[1..]| ensures key(xs[1..][i]) != key(xs[1..][j]) {
          assert key(xs[i + 1]) != key(xs[j + 1]);
        }
      }
      WithKeyDistinct(xs[1..], key, k);
      if key(xs[0]) == k {
        forall i | 0 <= i < |xs[1..]| ensures key(xs[1..][i]) != k {
          assert key(xs[i + 1]) != key(xs[0]);
        }
        WithKeyNone(xs[1..], key, k);
      }
      forall i | 0 <= i < |xs| && key(xs[i]) == k ensures WithKey(xs, key, k) == [xs[i]] {
        if i > 0 {
          assert xs[1..][i - 1] == xs[i];
          assert key(xs[0]) != key(xs[i]);
        }
      }
    }
  }

  /** The group of `k` after one more element. */
  lemma {:induction false} WithKeySnoc<T, K>(xs: seq<T>, x: T, key: T -> K, k: K)
    ensures WithKey(xs + [x], key, k) == WithKey(xs, key, k) + (if key(x) == k then [x] else [])
  {
    if |xs| == 0 {
      assert xs + [x] == [x] && [x][1..] == [];
    } else {
      assert (xs + [x])[1..] == xs[1..] + [x];
      WithKeySnoc(xs[1..], x, key, k);
    }
  }

  /** The group of `k` among the accepted elements, after one more element. */
  lemma GroupSnoc<T, K>(xs: seq<T>, x: T, p: T -> bool, key: T -> K, k: K)
    ensures WithKey(Filter(xs + [x], p), key, k)
         == WithKey(Filter(xs, p), key, k) + (if p(x) && key(x) == k then [x] else [])
  {
    FilterSnoc(xs, x, p);
    if p(x) {
      WithKeySnoc(Filter(xs, p), x, key, k);
    } else {
      assert Filter(xs, p) + [] == Filter(xs, p);
    }
  }

  /** The size and the sum of the group of `k` among the accepted elements, after one more
      element. */
  lemma GroupSumSnoc<T, K>(xs: seq<T>, x: T, p: T -> bool, key: T -> K, k: K, f: T -> real)
    ensures |WithKey(Filter(xs + [x], p), key, k)|
         == |WithKey(Filter(xs, p), key, k)| + (if p(x) && key(x) == k then 1 else 0)
    ensures Sum(WithKey(Filter(xs + [x], p), key, k), f)
         == Sum(WithKey(Filter(xs, p), key, k), f) + (if p(x) && key(x) == k then f(x) else 0.0)
  {
    GroupSnoc(xs, x, p, key, k);
    if p(x) && key(x) == k {
      SumSnoc(WithKey(Filter(xs, p), key, k), x, f);
    } else {
      assert WithKey(Filter(xs, p), key, k) + [] == WithKey(Filter(xs, p), key, k);
    }
  }

  /** A key that no element has has an empty group. */
  lemma {:induction false} WithKeyNone<T, K>(xs: seq<T>, key: T -> K, k: K)
    requires forall i :: 0 <= i < |xs| ==> key(xs[i]) != k
    ensures WithKey(xs, key, k) == []
  {
    if |xs| > 0 {
      WithKeyNone(xs[1..], key, k);
    }
  }

  /** A key that is not among the keys of the accepted elements has an empty group. */
  lemma KeysOfMissing<T, K>(xs: seq<T>, p: T -> bool, key: T -> K, k: K)
    requires k !in KeysOf(xs, p, key)
    ensures WithKey(Filter(xs, p), key, k) == []
  {
    KeysOfSpec(xs, p, key);
    var f := Filter(xs, p);
    forall i | 0 <= i < |f| ensures key(f[i]) != k {
      assert f[i] in f;
    }
    WithKeyNone(f, key, k);
  }

  /** The keys of the accepted elements after one more element: its key is added when it is
      accepted and new. */
  lemma KeysOfSnoc<T, K>(xs: seq<T>, x: T, p: T -> bool, key: T -> K)
    ensures KeysOf(xs + [x], p, key)
         == if p(x) && key(x) !in KeysOf(xs, p, key) then KeysOf(xs, p, key) + [key(x)] else KeysOf(xs, p, key)
  {
    FilterSnoc(xs, x, p);
    var f := Filter(xs, p);
    var kept := KeepFirst(f, key);
    assert KeyIn(kept, key, key(x)) <==> key(x) in KeysOf(xs, p, key) by {
      if KeyIn(kept, key, key(x)) {
        var i :| 0 <= i < |kept| && key(kept[i]) == key(x);
        assert KeysOf(xs, p, key)[i] == key(x);
      }
      if key(x) in KeysOf(xs, p, key) {
        var i :| 0 <= i < |kept| && KeysOf(xs, p, key)[i] == key(x);
        assert key(kept[i]) == key(x);
      }
    }
    if p(x) {
      KeepFirstSnoc(f, x, key);
      if !KeyIn(kept, key, key(x)) {
        MapSnoc(kept, x, key);
      }
    } else {
      assert f + [] == f;
    }
  }

  /** Filtering a group is grouping the filtered elements. */
  lemma {:induction false} FilterWithKey<T, K>(xs: seq<T>, key: T -> K, k: K, p: T -> bool)
    ensures Filter(WithKey(xs, key, k), p) == WithKey(Filter(xs, p), key, k)
  {
    if |xs| > 0 {
      var x := xs[0];
      var h := if key(x) == k then [x] else [];
      FilterWithKey(xs[1..], key, k, p);
      FilterAppend(h, WithKey(xs[1..], key, k), p);
      if p(x) {
        assert Filter(xs, p) == [x] + Filter(xs[1..], p);
        assert ([x] + Filter(xs[1..], p))[1..] == Filter(xs[1..], p);
      } else {
        assert Filter(xs, p) == Filter(xs[1..], p);
      }
    }
  }

  /** Dropping terms that are zero leaves a count total unchanged. */
  lemma {:induction false} SumNatFilter<U>(ys: seq<U>, p: U -> bool, f: U -> nat)
    requires forall i :: 0 <= i < |ys| ==> !p(ys[i]) ==> f(ys[i]) == 0
    ensures SumNat(Filter(ys, p), f) == SumNat(ys, f)
  {
    if |ys| > 0 {
      SumNatFilter(ys[1..], p, f);
      if p(ys[0]) {
        assert ([ys[0]] + Filter(ys[1..], p))[1..] == Filter(ys[1..], p);
      } else {
        assert Filter(ys, p) == Filter(ys[1..], p);
      }
    }
  }

  /** Over a group contained in another, a sum of terms that are non-negative where `p` holds is no
      larger. */
  lemma {:induction false} SumSubgroup<T, K, L>(xs: seq<T>, key: T -> K, k: K, outer: T -> L, o: L,
                                              p: T -> bool, f: T -> real)
    requires forall i :: 0 <= i < |xs| ==> key(xs[i]) == k ==> outer(xs[i]) == o
    requires forall i :: 0 <= i < |xs| ==> p(xs[i]) ==> f(xs[i]) >= 0.0
    ensures Sum(Filter(WithKey(xs, key, k), p), f) <= Sum(Filter(WithKey(xs, outer, o), p), f)
  {
    if |xs| > 0 {
      var x := xs[0];
      SumSubgroup(xs[1..], key, k, outer, o, p, f);
      var h1 := if key(x) == k then [x] else [];
      var h2 := if outer(x) == o then [x] else [];
      FilterAppend(h1, WithKey(xs[1..], key, k), p);
      FilterAppend(h2, WithKey(xs[1..], outer, o), p);
      SumAppend(Filter(h1, p), Filter(WithKey(xs[1..], key, k), p), f);
      SumAppend(Filter(h2, p), Filter(WithKey(xs[1..], outer, o), p), f);
      assert [x][1..] == [];
    }
  }

  /** Two keys that tell the same elements apart keep the same first elements. */
  lemma {:induction false} KeepFirstSameClasses<T, K, L>(xs: seq<T>, k1: T -> K, k2: T -> L)
    requires forall x, y :: x in xs && y in xs ==> (k1(x) == k1(y) <==> k2(x) == k2(y))
    ensures KeepFirst(xs, k1) == KeepFirst(xs, k2)
    decreases |xs|
  {
    if |xs| > 0 {
      var init, last := xs[..|xs| - 1], xs[|xs| - 1];
      assert forall x :: x in init ==> x in xs;
      KeepFirstSameClasses(init, k1, k2);
      var prev := KeepFirst(init, k1);
      KeepFirstMembers(init, k1);
      assert KeyIn(prev, k1, k1(last)) <==> KeyIn(prev, k2, k2(last)) by {
        if KeyIn(prev, k1, k1(last)) {
          var j :| 0 <= j < |prev| && k1(prev[j]) == k1(last);
          assert prev[j] in xs;
        }
        if KeyIn(prev, k2, k2(last)) {
          var j :| 0 <= j < |prev| && k2(prev[j]) == k2(last);
          assert prev[j] in xs;
        }
      }
    }
  }
}
