/** The dashboard's dictionary loops (src/components/Dashboard.tsx): `rows.forEach(row => { ...;
    if (!map[key]) map[key] = <empty entry>; <update map[key] with row> })`, possibly over a
    dictionary an earlier loop has filled, followed by a read-out of the entries. */
module Tally {
  import opened Seqs

  /** The entry a group of elements leaves after `v`: the updates applied in order. */
  function Fold<T, V>(v: V, xs: seq<T>, step: (V, T) -> V): V
    decreases |xs|
  {
    if |xs| == 0 then v else step(Fold(v, xs[..|xs| - 1], step), xs[|xs| - 1])
  }

  lemma FoldSnoc<T, V>(v: V, xs: seq<T>, x: T, step: (V, T) -> V)
    ensures Fold(v, xs + [x], step) == step(Fold(v, xs, step), x)
  {
    assert (xs + [x])[..|xs|] == xs;
  }

  /** What key `k` starts from: the entry the earlier loop left, or a fresh empty one. */
  function Start<K, V>(m0: map<K, V>, init: K -> V, k: K): V {
    if k in m0 then m0[k] else init(k)
  }

  /** The entry of key `k` once the elements `xs` have been through the loop: the updates of the
      elements that pass `p` and have key `k`, in order, applied to its start. */
  function Entry<T, K(==), V>(m0: map<K, V>, init: K -> V, xs: seq<T>, p: T -> bool, key: T -> K, step: (V, T) -> V, k: K): V {
    Fold(Start(m0, init, k), WithKey(Filter(xs, p), key, k), step)
  }

  function EntryOf<T, K(==), V>(m0: map<K, V>, init: K -> V, xs: seq<T>, p: T -> bool, key: T -> K, step: (V, T) -> V): K -> V {
    k => Entry(m0, init, xs, p, key, step, k)
  }

  function Outside<K(==)>(keys0: seq<K>): K -> bool {
    k => k !in keys0
  }

  /** The dictionary's keys in insertion order: the earlier ones, then each new key on its first
      appearance. */
  function NewKeys<T, K(==)>(keys0: seq<K>, xs: seq<T>, p: T -> bool, key: T -> K): seq<K> {
    keys0 + Filter(KeysOf(xs, p, key), Outside(keys0))
  }

  /** Starting from an empty dictionary, the keys are those of the passing elements in order of
      first appearance. */
  lemma NewKeysEmpty<T, K>(xs: seq<T>, p: T -> bool, key: T -> K)
    ensures NewKeys([], xs, p, key) == KeysOf(xs, p, key)
  {
    var ks := KeysOf(xs, p, key);
    var none: seq<K> := [];
    assert forall i :: 0 <= i < |ks| ==> Outside(none)(ks[i]);
    FilterAll(ks, Outside(none));
    assert none + ks == ks;
  }

  lemma InFilterOutside<K>(ks: seq<K>, keys0: seq<K>, k: K)
    ensures k in Filter(ks, Outside(keys0)) <==> k in ks && k !in keys0
  {
    if k in ks && k !in keys0 {
      FilterKeeps(ks, Outside(keys0), k);
    }
  }

  /** A key is in the dictionary exactly when it was there before or an element that passes has
      it; with distinct earlier keys, no key is listed twice. */
  lemma NewKeysSpec<T, K>(keys0: seq<K>, xs: seq<T>, p: T -> bool, key: T -> K)
    requires NoDuplicates(keys0)
    ensures NoDuplicates(NewKeys(keys0, xs, p, key))
    ensures forall k :: k in NewKeys(keys0, xs, p, key) <==> k in keys0 || exists x :: x in xs && p(x) && key(x) == k
  {
    var ks := KeysOf(xs, p, key);
    var added := Filter(ks, Outside(keys0));
    var all := NewKeys(keys0, xs, p, key);
    KeysOfSpec(xs, p, key);
    FilterSubsequenceDistinct(ks, Outside(keys0));
    forall i, j | 0 <= i < j < |all| ensures all[i] != all[j] {
      if j >= |keys0| && i < |keys0| {
        assert all[j] in added;
      }
    }
    forall k ensures k in all <==> k in keys0 || exists x :: x in xs && p(x) && key(x) == k {
      InFilterOutside(ks, keys0, k);
    }
  }

  /** The filter of distinct keys has distinct keys. */
  lemma {:induction false} FilterSubsequenceDistinct<K>(ks: seq<K>, q: K -> bool)
    requires NoDuplicates(ks)
    ensures NoDuplicates(Filter(ks, q))
  {
    if |ks| > 0 {
      assert NoDuplicates(ks[1..]) by {
        forall i, j | 0 <= i < j < |ks[1..]| ensures ks[1..][i] != ks[1..][j] {
          assert ks[i + 1] != ks[j + 1];
        }
      }
      FilterSubsequenceDistinct(ks[1..], q);
      assert ks[0] !in ks[1..] by {
        forall i | 0 <= i < |ks[1..]| ensures ks[1..][i] != ks[0] {
          assert ks[i + 1] != ks[0];
        }
      }
    }
  }

  /** One more element: its key joins the list when it passes and is new. */
  lemma NewKeysSnoc<T, K>(keys0: seq<K>, xs: seq<T>, x: T, p: T -> bool, key: T -> K)
    ensures NewKeys(keys0, xs + [x], p, key)
         == if p(x) && key(x) !in NewKeys(keys0, xs, p, key) then NewKeys(keys0, xs, p, key) + [key(x)] else NewKeys(keys0, xs, p, key)
  {
    var ks := KeysOf(xs, p, key);
    KeysOfSnoc(xs, x, p, key);
    InFilterOutside(ks, keys0, key(x));
    if p(x) && key(x) !in ks {
      FilterSnoc(ks, key(x), Outside(keys0));
    }
  }

  /** A key that is not yet listed starts empty and has no element so far. */
  lemma EntryMissing<T, K, V>(m0: map<K, V>, keys0: seq<K>, init: K -> V, xs: seq<T>, p: T -> bool, key: T -> K, step: (V, T) -> V, k: K)
    requires forall k' :: k' in m0 <==> k' in keys0
    requires k !in NewKeys(keys0, xs, p, key)
    ensures Entry(m0, init, xs, p, key, step, k) == init(k)
  {
    InFilterOutside(KeysOf(xs, p, key), keys0, k);
    KeysOfMissing(xs, p, key, k);
  }

  /** One more element leaves every other key's entry as it was... */
  lemma EntryUnchanged<T, K, V>(m0: map<K, V>, init: K -> V, xs: seq<T>, x: T, p: T -> bool, key: T -> K, step: (V, T) -> V, k: K)
    requires !(p(x) && key(x) == k)
    ensures Entry(m0, init, xs + [x], p, key, step, k) == Entry(m0, init, xs, p, key, step, k)
  {
    GroupSnoc(xs, x, p, key, k);
    var g := WithKey(Filter(xs, p), key, k);
    assert g + [] == g;
  }

  /** ...and applies its update to the entry of its own key. */
  lemma EntryStep<T, K, V>(m0: map<K, V>, init: K -> V, xs: seq<T>, x: T, p: T -> bool, key: T -> K, step: (V, T) -> V)
    requires p(x)
    ensures Entry(m0, init, xs + [x], p, key, step, key(x)) == step(Entry(m0, init, xs, p, key, step, key(x)), x)
  {
    GroupSnoc(xs, x, p, key, key(x));
    FoldSnoc(Start(m0, init, key(x)), WithKey(Filter(xs, p), key, key(x)), x, step);
  }

  /** The dictionary and its keys after the elements `xs`, when the loop started from `m0` with
      keys `keys0`. */
  ghost predicate Tallied<T, K(!new), V>(m: map<K, V>, keys: seq<K>, m0: map<K, V>, keys0: seq<K>, init: K -> V,
                                       xs: seq<T>, p: T -> bool, key: T -> K, step: (V, T) -> V) {
    && keys == NewKeys(keys0, xs, p, key)
    && (forall k :: k in m <==> k in keys)
    && (forall k :: k in m ==> m[k] == Entry(m0, init, xs, p, key, step, k))
  }

  lemma TalliedStart<T, K(!new), V>(m0: map<K, V>, keys0: seq<K>, init: K -> V, p: T -> bool, key: T -> K, step: (V, T) -> V)
    requires forall k :: k in m0 <==> k in keys0
    ensures Tallied(m0, keys0, m0, keys0, init, [], p, key, step)
  {
    assert NewKeys(keys0, [], p, key) == keys0 by {
      assert Filter([], p) == [];
      assert KeysOf([], p, key) == [];
      assert Filter([], Outside(keys0)) == [];
    }
  }

  /** An element that does not pass changes nothing. */
  lemma TalliedSkip<T, K(!new), V>(m: map<K, V>, keys: seq<K>, m0: map<K, V>, keys0: seq<K>, init: K -> V,
                             xs: seq<T>, x: T, p: T -> bool, key: T -> K, step: (V, T) -> V)
    requires Tallied(m, keys, m0, keys0, init, xs, p, key, step) && !p(x)
    ensures Tallied(m, keys, m0, keys0, init, xs + [x], p, key, step)
  {
    NewKeysSnoc(keys0, xs, x, p, key);
    forall k | k in m ensures m[k] == Entry(m0, init, xs + [x], p, key, step, k) {
      EntryUnchanged(m0, init, xs, x, p, key, step, k);
    }
  }

  /** Updating the entry of a listed key keeps every entry right. */
  lemma TalliedUpdate<T, K(!new), V>(m: map<K, V>, keys: seq<K>, m0: map<K, V>, keys0: seq<K>, init: K -> V,
                               xs: seq<T>, x: T, p: T -> bool, key: T -> K, step: (V, T) -> V)
    requires Tallied(m, keys, m0, keys0, init, xs, p, key, step) && p(x) && key(x) in m
    ensures Tallied(m[key(x) := step(m[key(x)], x)], keys, m0, keys0, init, xs + [x], p, key, step)
  {
    var k := key(x);
    var m' := m[k := step(m[k], x)];
    NewKeysSnoc(keys0, xs, x, p, key);
    forall k' | k' in m' ensures m'[k'] == Entry(m0, init, xs + [x], p, key, step, k') {
      if k' == k {
        EntryStep(m0, init, xs, x, p, key, step);
      } else {
        EntryUnchanged(m0, init, xs, x, p, key, step, k');
      }
    }
  }

  /** A passing element with a new key: the empty entry is created and the key listed, then the
      entry is updated as for a listed key. */
  lemma TalliedCreate<T, K(!new), V>(m: map<K, V>, keys: seq<K>, m0: map<K, V>, keys0: seq<K>, init: K -> V,
                               xs: seq<T>, x: T, p: T -> bool, key: T -> K, step: (V, T) -> V)
    requires forall k :: k in m0 <==> k in keys0
    requires Tallied(m, keys, m0, keys0, init, xs, p, key, step) && p(x) && key(x) !in m
    ensures Tallied(m[key(x) := step(init(key(x)), x)], keys + [key(x)], m0, keys0, init, xs + [x], p, key, step)
  {
    var k := key(x);
    assert k !in NewKeys(keys0, xs, p, key);
    EntryMissing(m0, keys0, init, xs, p, key, step, k);
    EntryStep(m0, init, xs, x, p, key, step);
    NewKeysSnoc(keys0, xs, x, p, key);
    assert keys + [k] == NewKeys(keys0, xs + [x], p, key);
    TalliedOthers(m, m0, init, xs, x, p, key, step);
    var m' := m[k := step(init(k), x)];
    assert forall k' :: k' in m' <==> k' in keys + [k];
    assert forall k' :: k' in m' ==> m'[k'] == Entry(m0, init, xs + [x], p, key, step, k') by {
      forall k' | k' in m' ensures m'[k'] == Entry(m0, init, xs + [x], p, key, step, k') {
        if k' != k {
          assert k' in m;
        }
      }
    }
  }

  /** The entries of the keys other than the new element's stay right. */
  lemma TalliedOthers<T, K(!new), V>(m: map<K, V>, m0: map<K, V>, init: K -> V, xs: seq<T>, x: T, p: T -> bool, key: T -> K, step: (V, T) -> V)
    requires forall k :: k in m ==> m[k] == Entry(m0, init, xs, p, key, step, k)
    requires key(x) !in m
    ensures forall k :: k in m ==> m[k] == Entry(m0, init, xs + [x], p, key, step, k)
  {
    forall k | k in m ensures m[k] == Entry(m0, init, xs + [x], p, key, step, k) {
      EntryUnchanged(m0, init, xs, x, p, key, step, k);
    }
  }

  /** A second assignment to the same key replaces the first. */
  lemma Overwrite<K, V>(m: map<K, V>, k: K, a: V, b: V)
    ensures m[k := a][k := b] == m[k := b]
  {
  }

  /** One pass of the loop: an element that passes `p` has its key's entry created if missing
      (and the key listed), then updated. */
  method TallyOne<T, K(==,!new), V>(m: map<K, V>, keys: seq<K>, ghost m0: map<K, V>, ghost keys0: seq<K>, init: K -> V,
                               ghost xs: seq<T>, x: T, p: T -> bool, key: T -> K, step: (V, T) -> V)
    returns (m': map<K, V>, keys': seq<K>)
    requires forall k :: k in m0 <==> k in keys0
    requires Tallied(m, keys, m0, keys0, init, xs, p, key, step)
    ensures Tallied(m', keys', m0, keys0, init, xs + [x], p, key, step)
  {
    m', keys' := m, keys;
    if p(x) {
      var k := key(x);
      if k !in m' {
        m' := m'[k := init(k)];
        keys' := keys' + [k];
      }
      m' := m'[k := step(m'[k], x)];
      if k in m {
        TalliedUpdate(m, keys, m0, keys0, init, xs, x, p, key, step);
      } else {
        TalliedCreate(m, keys, m0, keys0, init, xs, x, p, key, step);
        Overwrite(m, k, init(k), step(init(k), x));
      }
    } else {
      TalliedSkip(m, keys, m0, keys0, init, xs, x, p, key, step);
    }
  }

  /** The whole loop over `xs`, starting from the dictionary `m0` with keys `keys0`. */
  method TallyAll<T, K(==,!new), V>(m0: map<K, V>, keys0: seq<K>, init: K -> V, xs: seq<T>, p: T -> bool, key: T -> K, step: (V, T) -> V)
    returns (m: map<K, V>, keys: seq<K>)
    requires forall k :: k in m0 <==> k in keys0
    ensures Tallied(m, keys, m0, keys0, init, xs, p, key, step)
  {
    m, keys := m0, keys0;
    TalliedStart(m0, keys0, init, p, key, step);
    for i := 0 to |xs|
      invariant Tallied(m, keys, m0, keys0, init, xs[..i], p, key, step)
    {
      TakeSnoc(xs, i);
      m, keys := TallyOne(m, keys, m0, keys0, init, xs[..i], xs[i], p, key, step);
    }
    assert xs[..|xs|] == xs;
  }

  /** `ks.map(k => map[k])` (and `Object.values(map)` when `ks` are its keys in insertion order). */
  method ReadOut<K, V>(m: map<K, V>, ks: seq<K>, entry: K -> V) returns (out: seq<V>)
    requires forall k :: k in ks ==> k in m && m[k] == entry(k)
    ensures out == Map(ks, entry)
  {
    out := [];
    for j := 0 to |ks|
      invariant out == Map(ks[..j], entry)
    {
      MapSnoc(ks[..j], ks[j], entry);
      TakeSnoc(ks, j);
      out := out + [m[ks[j]]];
    }
    assert ks[..|ks|] == ks;
  }
}
