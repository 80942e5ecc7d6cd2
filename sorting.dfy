/** `Array.prototype.sort` with a comparator, JavaScript's default string sort and Python's `sorted`,
    as a stable insertion sort over any total preorder. */
module Sorting {
  import opened Seqs

  /** `le` orders every pair and is transitive. */
  ghost predicate TotalPreorder<T(!new)>(le: (T, T) -> bool) {
    (forall a, b :: le(a, b) || le(b, a))
    && (forall a, b, c :: le(a, b) && le(b, c) ==> le(a, c))
  }

  predicate Sorted<T>(xs: seq<T>, le: (T, T) -> bool) {
    forall i, j :: 0 <= i < j < |xs| ==> le(xs[i], xs[j])
  }

  /** `x` placed in front of the first element it may precede. */
  function Insert<T>(x: T, xs: seq<T>, le: (T, T) -> bool): (r: seq<T>)
    ensures |r| == |xs| + 1
  {
    if |xs| == 0 then [x]
    else if le(x, xs[0]) then [x] + xs
    else [xs[0]] + Insert(x, xs[1..], le)
  }

  /** The elements of `xs` in `le` order; an element goes before the later ones it ties with. */
  function Sort<T>(xs: seq<T>, le: (T, T) -> bool): (r: seq<T>)
    ensures |r| == |xs|
  {
    if |xs| == 0 then [] else Insert(xs[0], Sort(xs[1..], le), le)
  }

  lemma {:induction false} InsertPermutes<T>(x: T, xs: seq<T>, le: (T, T) -> bool)
    ensures multiset(Insert(x, xs, le)) == multiset(xs) + multiset{x}
  {
    if |xs| > 0 && !le(x, xs[0]) {
      InsertPermutes(x, xs[1..], le);
      assert xs == [xs[0]] + xs[1..];
    }
  }

  /** Sorting rearranges: the result holds the same elements, as often. */
  lemma {:induction false} SortPermutes<T>(xs: seq<T>, le: (T, T) -> bool)
    ensures multiset(Sort(xs, le)) == multiset(xs)
  {
    if |xs| > 0 {
      SortPermutes(xs[1..], le);
      InsertPermutes(xs[0], Sort(xs[1..], le), le);
      assert xs == [xs[0]] + xs[1..];
    }
  }

  lemma {:induction false} InsertSorted<T(!new)>(x: T, xs: seq<T>, le: (T, T) -> bool)
    requires TotalPreorder(le)
    requires Sorted(xs, le)
    ensures Sorted(Insert(x, xs, le), le)
  {
    if |xs| > 0 && !le(x, xs[0]) {
      InsertSorted(x, xs[1..], le);
      var r := Insert(x, xs, le);
      var tail := Insert(x, xs[1..], le);
      InsertPermutes(x, xs[1..], le);
      forall j | 1 <= j < |r| ensures le(xs[0], r[j]) {
        assert r[j] == tail[j - 1];
        assert tail[j - 1] in multiset(tail);
        assert r[j] == x || r[j] in multiset(xs[1..]);
        if r[j] != x {
          var k :| 0 <= k < |xs[1..]| && xs[1..][k] == r[j];
          assert xs[k + 1] == r[j];
        }
      }
    } else if |xs| > 0 {
      var r := Insert(x, xs, le);
      forall i, j | 0 <= i < j < |r| ensures le(r[i], r[j]) {
        if i == 0 {
          assert le(x, xs[0]);
          if j > 1 {
            assert le(xs[0], xs[j - 1]);
          }
        } else {
          assert le(xs[i - 1], xs[j - 1]);
        }
      }
    }
  }

  /** Sorting by a total preorder gives a sorted sequence. */
  lemma {:induction false} SortSorted<T(!new)>(xs: seq<T>, le: (T, T) -> bool)
    requires TotalPreorder(le)
    ensures Sorted(Sort(xs, le), le)
  {
    if |xs| > 0 {
      SortSorted(xs[1..], le);
      InsertSorted(xs[0], Sort(xs[1..], le), le);
    }
  }

  lemma {:induction false} InsertSum<T>(x: T, xs: seq<T>, le: (T, T) -> bool, f: T -> real)
    ensures Sum(Insert(x, xs, le), f) == f(x) + Sum(xs, f)
  {
    if |xs| > 0 && !le(x, xs[0]) {
      InsertSum(x, xs[1..], le, f);
      assert Insert(x, xs, le)[1..] == Insert(x, xs[1..], le);
    } else if |xs| > 0 {
      assert Insert(x, xs, le)[1..] == xs;
    }
  }

  /** Sorting leaves a sum unchanged. */
  lemma {:induction false} SortSum<T>(xs: seq<T>, le: (T, T) -> bool, f: T -> real)
    ensures Sum(Sort(xs, le), f) == Sum(xs, f)
  {
    if |xs| > 0 {
      SortSum(xs[1..], le, f);
      InsertSum(xs[0], Sort(xs[1..], le), le, f);
    }
  }

  lemma {:induction false} InsertSumNat<T>(x: T, xs: seq<T>, le: (T, T) -> bool, f: T -> nat)
    ensures SumNat(Insert(x, xs, le), f) == f(x) + SumNat(xs, f)
  {
    if |xs| > 0 && !le(x, xs[0]) {
      InsertSumNat(x, xs[1..], le, f);
      assert Insert(x, xs, le)[1..] == Insert(x, xs[1..], le);
    } else if |xs| > 0 {
      assert Insert(x, xs, le)[1..] == xs;
    }
  }

  /** Sorting leaves a count total unchanged. */
  lemma {:induction false} SortSumNat<T>(xs: seq<T>, le: (T, T) -> bool, f: T -> nat)
    ensures SumNat(Sort(xs, le), f) == SumNat(xs, f)
  {
    if |xs| > 0 {
      SortSumNat(xs[1..], le, f);
      InsertSumNat(xs[0], Sort(xs[1..], le), le, f);
    }
  }

  /** Sorting keeps exactly the elements it was given. */
  lemma SortMember<T>(xs: seq<T>, le: (T, T) -> bool, x: T)
    ensures x in Sort(xs, le) <==> x in xs
  {
    SortPermutes(xs, le);
    assert x in Sort(xs, le) <==> x in multiset(Sort(xs, le));
  }

  lemma {:induction false} InsertDistinct<T, K>(x: T, xs: seq<T>, le: (T, T) -> bool, key: T -> K)
    requires DistinctKeys(xs, key) && !KeyIn(xs, key, key(x))
    ensures DistinctKeys(Insert(x, xs, le), key)
  {
    if |xs| > 0 && !le(x, xs[0]) {
      var tail := xs[1..];
      assert DistinctKeys(tail, key) by {
        forall i, j | 0 <= i < j < |tail| ensures key(tail[i]) != key(tail[j]) {
          assert key(xs[i + 1]) != key(xs[j + 1]);
        }
      }
      assert !KeyIn(tail, key, key(x)) by {
        forall i | 0 <= i < |tail| ensures key(tail[i]) != key(x) {
          assert xs[i + 1] == tail[i];
        }
      }
      InsertDistinct(x, tail, le, key);
      InsertPermutes(x, tail, le);
      var r := Insert(x, tail, le);
      forall i | 0 <= i < |r| ensures key(r[i]) != key(xs[0]) {
        assert r[i] in multiset(r);
        if r[i] != x {
          var j :| 0 <= j < |tail| && tail[j] == r[i];
          assert key(xs[0]) != key(xs[j + 1]);
        }
      }
    } else if |xs| > 0 {
      forall i | 0 <= i < |xs| ensures key(xs[i]) != key(x) {
      }
    }
  }

  /** Sorting keeps keys distinct. */
  lemma {:induction false} SortDistinct<T, K>(xs: seq<T>, le: (T, T) -> bool, key: T -> K)
    requires DistinctKeys(xs, key)
    ensures DistinctKeys(Sort(xs, le), key)
  {
    if |xs| > 0 {
      var tail := xs[1..];
      assert DistinctKeys(tail, key) by {
        forall i, j | 0 <= i < j < |tail| ensures key(tail[i]) != key(tail[j]) {
          assert key(xs[i + 1]) != key(xs[j + 1]);
        }
      }
      SortDistinct(tail, le, key);
      var s := Sort(tail, le);
      assert !KeyIn(s, key, key(xs[0])) by {
        forall i | 0 <= i < |s| ensures key(s[i]) != key(xs[0]) {
          SortMember(tail, le, s[i]);
          assert s[i] in tail;
          var j :| 0 <= j < |tail| && tail[j] == s[i];
          assert key(xs[0]) != key(xs[j + 1]);
        }
      }
      InsertDistinct(xs[0], s, le, key);
    }
  }

  /** A report built as `keys.map(entry).sort(cmp)` over distinct keys, where each entry carries
      its key: it is ordered, names each key once, and holds exactly the keys' entries. */
  lemma RankedTable<K, E(!new)>(keys: seq<K>, entry: K -> E, name: E -> K, le: (E, E) -> bool)
    requires NoDuplicates(keys)
    requires forall k :: name(entry(k)) == k
    requires TotalPreorder(le)
    ensures Sorted(Sort(Map(keys, entry), le), le)
    ensures DistinctKeys(Sort(Map(keys, entry), le), name)
    ensures forall e :: e in Sort(Map(keys, entry), le) ==> name(e) in keys && e == entry(name(e))
    ensures forall k :: k in keys ==> entry(k) in Sort(Map(keys, entry), le)
  {
    var raw := Map(keys, entry);
    SortSorted(raw, le);
    assert DistinctKeys(raw, name) by {
      forall i, j | 0 <= i < j < |raw| ensures name(raw[i]) != name(raw[j]) {
        assert name(raw[i]) == keys[i] && name(raw[j]) == keys[j];
      }
    }
    SortDistinct(raw, le, name);
    forall e | e in Sort(raw, le) ensures name(e) in keys && e == entry(name(e)) {
      SortMember(raw, le, e);
      var i :| 0 <= i < |raw| && raw[i] == e;
      assert name(e) == keys[i];
    }
    forall k | k in keys ensures entry(k) in Sort(raw, le) {
      var i :| 0 <= i < |keys| && keys[i] == k;
      assert raw[i] == entry(k);
      SortMember(raw, le, raw[i]);
    }
  }

  /** A report built as `xs.filter(p).map(f).sort(cmp)`: it is ordered and holds exactly the
      images of the elements that pass. */
  lemma SortedImage<T, U(!new)>(xs: seq<T>, p: T -> bool, f: T -> U, le: (U, U) -> bool)
    requires TotalPreorder(le)
    ensures Sorted(Sort(Map(Filter(xs, p), f), le), le)
    ensures forall u :: u in Sort(Map(Filter(xs, p), f), le) ==> exists x :: x in xs && p(x) && u == f(x)
    ensures forall x :: x in xs && p(x) ==> f(x) in Sort(Map(Filter(xs, p), f), le)
  {
    var picked := Filter(xs, p);
    var raw := Map(picked, f);
    SortSorted(raw, le);
    forall u | u in Sort(raw, le) ensures exists x :: x in xs && p(x) && u == f(x) {
      SortMember(raw, le, u);
      var i :| 0 <= i < |raw| && raw[i] == u;
      assert picked[i] in picked;
    }
    forall x | x in xs && p(x) ensures f(x) in Sort(raw, le) {
      FilterKeeps(xs, p, x);
      var i :| 0 <= i < |picked| && picked[i] == x;
      assert raw[i] == f(x);
      SortMember(raw, le, raw[i]);
    }
  }

  // ----- String order -----

  /** Code-point order on strings, as Python's `<` and, within the Basic Multilingual Plane,
      JavaScript's default `sort`. */
  predicate LexLe(a: string, b: string) {
    if |a| == 0 then true
    else if |b| == 0 then false
    else if a[0] != b[0] then a[0] < b[0]
    else LexLe(a[1..], b[1..])
  }

  lemma {:induction false} LexLeTotal(a: string, b: string)
    ensures LexLe(a, b) || LexLe(b, a)
  {
    if |a| > 0 && |b| > 0 && a[0] == b[0] {
      LexLeTotal(a[1..], b[1..]);
    }
  }

  lemma {:induction false} LexLeTrans(a: string, b: string, c: string)
    requires LexLe(a, b) && LexLe(b, c)
    ensures LexLe(a, c)
  {
    if |a| > 0 && |b| > 0 && |c| > 0 && a[0] == b[0] && b[0] == c[0] {
      LexLeTrans(a[1..], b[1..], c[1..]);
    }
  }

  lemma {:induction false} LexLeAntisymmetric(a: string, b: string)
    requires LexLe(a, b) && LexLe(b, a)
    ensures a == b
  {
    if |a| > 0 && |b| > 0 {
      LexLeAntisymmetric(a[1..], b[1..]);
      assert a == [a[0]] + a[1..] && b == [b[0]] + b[1..];
    }
  }

  /** Code-point order is a total preorder (indeed a total order). */
  lemma LexLeTotalPreorder()
    ensures TotalPreorder(LexLe)
  {
    forall a, b ensures LexLe(a, b) || LexLe(b, a) {
      LexLeTotal(a, b);
    }
    forall a, b, c | LexLe(a, b) && LexLe(b, c) ensures LexLe(a, c) {
      LexLeTrans(a, b, c);
    }
  }

  function Id<T>(x: T): T { x }

  /** `Object.keys(o).sort()` over distinct keys: ascending, each key once, the same keys. */
  lemma SortedStrings(ks: seq<string>)
    requires NoDuplicates(ks)
    ensures Sorted(Sort(ks, LexLe), LexLe)
    ensures NoDuplicates(Sort(ks, LexLe))
    ensures forall k :: k in Sort(ks, LexLe) <==> k in ks
  {
    LexLeTotalPreorder();
    SortSorted(ks, LexLe);
    assert DistinctKeys(ks, Id);
    SortDistinct(ks, LexLe, Id);
    var s := Sort(ks, LexLe);
    assert NoDuplicates(s) by {
      forall i, j | 0 <= i < j < |s| ensures s[i] != s[j] {
        assert Id(s[i]) != Id(s[j]);
      }
    }
    forall k ensures k in s <==> k in ks {
      SortMember(ks, LexLe, k);
    }
  }
}
