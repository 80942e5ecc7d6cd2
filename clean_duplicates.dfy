/** The duplicate clean-up of the stored leads (scripts/clean-duplicates.cjs): every lead fetched
    newest first is kept when it is the first with its key and set aside as a duplicate otherwise;
    the table is rebuilt from the kept leads only when there is some duplicate. */
module CleanDuplicates {
  import opened Text
  import opened Seqs
  import opened Columns

  // ----- The key of a lead -----

  /** `lead.telefone && lead.telefone.trim() !== ''`; an absent or null phone reads as "". */
  predicate HasPhone(lead: Row) {
    Trim(Field(lead, "telefone")) != ""
  }

  /** `email|telefone` for a lead with a phone, the email alone otherwise; the phone goes into the
      key untrimmed. */
  function Key(lead: Row): string {
    if HasPhone(lead) then Field(lead, "email") + "|" + Field(lead, "telefone") else Field(lead, "email")
  }

  /** The index of `|` in `e + "|" + t` when `e` has none. */
  lemma BarPosition(e: string, t: string, i: nat)
    requires '|' !in e
    requires i < |e + "|" + t| && (e + "|" + t)[i] == '|'
    ensures i >= |e|
  {
  }

  /** Two keys with a bar after email parts free of bars agree exactly when both parts agree. */
  lemma BarKeysAgree(e1: string, t1: string, e2: string, t2: string)
    requires '|' !in e1 && '|' !in e2
    ensures e1 + "|" + t1 == e2 + "|" + t2 <==> e1 == e2 && t1 == t2
  {
    var k1, k2 := e1 + "|" + t1, e2 + "|" + t2;
    if k1 == k2 {
      assert k1[|e1|] == '|';
      assert k2[|e2|] == '|';
      BarPosition(e1, t1, |e2|);
      BarPosition(e2, t2, |e1|);
      assert e1 == k1[..|e1|] == k2[..|e2|] == e2;
      assert t1 == k1[|e1| + 1..] == k2[|e2| + 1..] == t2;
    }
  }

  /** When no email holds a `|`, two leads share a key exactly when they have the same email and
      either both lack a phone or both have the same phone. */
  lemma KeysAgree(l1: Row, l2: Row)
    requires '|' !in Field(l1, "email") && '|' !in Field(l2, "email")
    ensures Key(l1) == Key(l2) <==>
              Field(l1, "email") == Field(l2, "email") && HasPhone(l1) == HasPhone(l2)
              && (HasPhone(l1) ==> Field(l1, "telefone") == Field(l2, "telefone"))
  {
    var e1, e2 := Field(l1, "email"), Field(l2, "email");
    var t1, t2 := Field(l1, "telefone"), Field(l2, "telefone");
    if HasPhone(l1) && HasPhone(l2) {
      BarKeysAgree(e1, t1, e2, t2);
    } else if HasPhone(l1) && !HasPhone(l2) {
      assert Key(l1) != Key(l2);
    } else if !HasPhone(l1) && HasPhone(l2) {
      assert Key(l1) != Key(l2);
    }
  }

  /** Without that condition a lead with a phone and a lead without one can share a key. */
  lemma BarInEmailCollides()
    ensures Key([("email", "a"), ("telefone", "b")]) == Key([("email", "a|b")])
  {
    var l1, l2 := [("email", "a"), ("telefone", "b")], [("email", "a|b")];
    assert Field(l1, "email") == "a" && Field(l1, "telefone") == "b";
    assert Field(l2, "email") == "a|b" && Field(l2, "telefone") == "";
    assert Trim("b") == "b" by {
      TrimNoOp("b", IsSpace);
    }
    assert Trim("") == "";
  }

  // ----- Keeping the first lead per key -----

  /** The elements `KeepFirst` leaves out, in order: each one has the key of an earlier kept one. */
  function Dropped<T, K(==)>(xs: seq<T>, key: T -> K): seq<T>
    decreases |xs|
  {
    if |xs| == 0 then []
    else
      var init := xs[..|xs| - 1];
      Dropped(init, key) + (if KeyIn(KeepFirst(init, key), key, key(xs[|xs| - 1])) then [xs[|xs| - 1]] else [])
  }

  /** The state of the loop after the elements `xs`: `kept` and `dups` are what was kept and set
      aside, and the map sends the key of every kept element to that element and has no other key. */
  predicate Scanned<T(==), K(==)>(xs: seq<T>, key: T -> K, m: map<K, T>, kept: seq<T>, dups: seq<T>) {
    && kept == KeepFirst(xs, key)
    && dups == Dropped(xs, key)
    && m.Keys == KeySet(kept, key)
    && forall j :: 0 <= j < |kept| ==> key(kept[j]) in m && m[key(kept[j])] == kept[j]
  }

  lemma KeySetSnoc<T, K>(xs: seq<T>, x: T, key: T -> K)
    ensures KeySet(xs + [x], key) == KeySet(xs, key) + {key(x)}
  {
    assert (xs + [x])[..|xs|] == xs;
  }

  /** One step of `if (uniqueLeads.has(key)) duplicates.push(lead); else uniqueLeads.set(key, lead)`. */
  lemma ScanStep<T, K>(before: seq<T>, x: T, key: T -> K, m: map<K, T>, kept: seq<T>, dups: seq<T>)
    requires Scanned(before, key, m, kept, dups)
    ensures key(x) in m ==> Scanned(before + [x], key, m, kept, dups + [x])
    ensures key(x) !in m ==> Scanned(before + [x], key, m[key(x) := x], kept + [x], dups)
  {
    assert (before + [x])[..|before|] == before;
    KeepFirstSnoc(before, x, key);
    KeySetIff(kept, key, key(x));
    if key(x) !in m {
      KeySetSnoc(kept, x, key);
      assert (kept + [x])[|kept|] == x;
    }
  }

  /** Kept and set aside together account for every element. */
  lemma {:induction false} PartitionCount<T, K>(xs: seq<T>, key: T -> K)
    ensures |KeepFirst(xs, key)| + |Dropped(xs, key)| == |xs|
    decreases |xs|
  {
    if |xs| > 0 {
      var init := xs[..|xs| - 1];
      PartitionCount(init, key);
      KeepFirstSnoc(init, xs[|xs| - 1], key);
      assert init + [xs[|xs| - 1]] == xs;
    }
  }

  /** Every element set aside is an element whose key an earlier kept element already has. */
  lemma {:induction false} DroppedHaveKeptKey<T, K>(xs: seq<T>, key: T -> K)
    ensures forall d :: d in Dropped(xs, key) ==> d in xs && KeyIn(KeepFirst(xs, key), key, key(d))
    decreases |xs|
  {
    if |xs| > 0 {
      var init, x := xs[..|xs| - 1], xs[|xs| - 1];
      DroppedHaveKeptKey(init, key);
      KeepFirstSnoc(init, x, key);
      assert init + [x] == xs;
      var prev := KeepFirst(init, key);
      forall d | d in Dropped(xs, key) ensures d in xs && KeyIn(KeepFirst(xs, key), key, key(d)) {
        if d in Dropped(init, key) {
          assert d in init;
          if !KeyIn(prev, key, key(x)) {
            KeyInSnoc(prev, x, key);
          }
        } else {
          assert d == x;
        }
      }
    }
  }

  /** Nothing is set aside exactly when no two elements share a key. */
  lemma {:induction false} NoneDroppedIffDistinct<T, K>(xs: seq<T>, key: T -> K)
    ensures Dropped(xs, key) == [] <==> DistinctKeys(xs, key)
    decreases |xs|
  {
    if |xs| > 0 {
      var init, x := xs[..|xs| - 1], xs[|xs| - 1];
      NoneDroppedIffDistinct(init, key);
      KeepFirstKeys(init, key, key(x));
      if Dropped(xs, key) == [] {
        assert Dropped(init, key) == [];
        assert !KeyIn(init, key, key(x));
        forall i, j | 0 <= i < j < |xs| ensures key(xs[i]) != key(xs[j]) {
          if j == |xs| - 1 {
            assert key(init[i]) != key(x);
          } else {
            assert key(init[i]) != key(init[j]);
          }
        }
      }
      if DistinctKeys(xs, key) {
        assert DistinctKeys(init, key) by {
          forall i, j | 0 <= i < j < |init| ensures key(init[i]) != key(init[j]) {
            assert key(xs[i]) != key(xs[j]);
          }
        }
        assert !KeyIn(init, key, key(x)) by {
          forall i | 0 <= i < |init| ensures key(init[i]) != key(x) {
            assert key(xs[i]) != key(xs[|xs| - 1]);
          }
        }
      }
    }
  }

  /** Distinct keys make as many keys as elements. */
  lemma {:induction false} DistinctKeyCount<T, K>(xs: seq<T>, key: T -> K)
    requires DistinctKeys(xs, key)
    ensures |KeySet(xs, key)| == |xs|
    decreases |xs|
  {
    if |xs| > 0 {
      var init, x := xs[..|xs| - 1], xs[|xs| - 1];
      assert DistinctKeys(init, key) by {
        forall i, j | 0 <= i < j < |init| ensures key(init[i]) != key(init[j]) {
          assert key(xs[i]) != key(xs[j]);
        }
      }
      DistinctKeyCount(init, key);
      KeySetIff(init, key, key(x));
      assert !KeyIn(init, key, key(x)) by {
        forall i | 0 <= i < |init| ensures key(init[i]) != key(x) {
          assert key(xs[i]) != key(xs[|xs| - 1]);
        }
      }
    }
  }

  /** Over input ordered by a rank that does not increase, the element kept at `j` ranks at least
      as high as the element at `i` when they share a key. */
  lemma {:induction false} KeptRankAt<T, K>(xs: seq<T>, key: T -> K, rank: T -> int, j: nat, i: nat)
    requires forall a, b :: 0 <= a < b < |xs| ==> rank(xs[a]) >= rank(xs[b])
    requires j < |KeepFirst(xs, key)| && i < |xs| && key(xs[i]) == key(KeepFirst(xs, key)[j])
    ensures rank(KeepFirst(xs, key)[j]) >= rank(xs[i])
    decreases |xs|
  {
    var init, x := xs[..|xs| - 1], xs[|xs| - 1];
    var prev := KeepFirst(init, key);
    KeepFirstSnoc(init, x, key);
    assert init + [x] == xs;
    if j < |prev| {
      assert KeepFirst(xs, key)[j] == prev[j];
      if i < |init| {
        assert xs[i] == init[i];
        KeptRankAt(init, key, rank, j, i);
      } else {
        KeepFirstMembers(init, key);
        assert prev[j] in prev;
        var m :| 0 <= m < |init| && init[m] == prev[j];
        assert rank(xs[m]) >= rank(xs[i]);
      }
    } else {
      assert KeepFirst(xs, key)[j] == x && !KeyIn(prev, key, key(x));
      KeepFirstKeys(init, key, key(x));
      assert i == |xs| - 1;
    }
  }

  /** The same for every kept element and every element with its key; fetched `created_at`
      descending, the kept lead is the newest. */
  lemma KeptRankHighest<T, K>(xs: seq<T>, key: T -> K, rank: T -> int)
    requires forall i, j :: 0 <= i < j < |xs| ==> rank(xs[i]) >= rank(xs[j])
    ensures forall j, i :: 0 <= j < |KeepFirst(xs, key)| && 0 <= i < |xs| && key(xs[i]) == key(KeepFirst(xs, key)[j])
              ==> rank(KeepFirst(xs, key)[j]) >= rank(xs[i])
  {
    forall j, i | 0 <= j < |KeepFirst(xs, key)| && 0 <= i < |xs| && key(xs[i]) == key(KeepFirst(xs, key)[j])
      ensures rank(KeepFirst(xs, key)[j]) >= rank(xs[i])
    {
      KeptRankAt(xs, key, rank, j, i);
    }
  }

  // ----- The clean-up -----

  /** Steps 2-4 of `cleanDuplicates` as values: nothing happens without a duplicate; otherwise the
      table is emptied and the kept leads are inserted (`removed` is `duplicates.length`). */
  datatype Cleanup = AlreadyClean | Rebuild(inserted: seq<Row>, removed: nat)

  function CleanupOf(allLeads: seq<Row>): Cleanup {
    var dups := Dropped(allLeads, Key);
    if |dups| == 0 then AlreadyClean else Rebuild(KeepFirst(allLeads, Key), |dups|)
  }

  /** The `forEach` over the fetched leads: `uniqueLeads` is the map, `unique` its values in
      insertion order (`Array.from(uniqueLeads.values())`). */
  method IdentifyDuplicates(allLeads: seq<Row>) returns (uniqueLeads: map<string, Row>, unique: seq<Row>, duplicates: seq<Row>)
    ensures unique == KeepFirst(allLeads, Key)
    ensures duplicates == Dropped(allLeads, Key)
    ensures uniqueLeads.Keys == KeySet(unique, Key)
    ensures forall j :: 0 <= j < |unique| ==> Key(unique[j]) in uniqueLeads && uniqueLeads[Key(unique[j])] == unique[j]
    ensures |uniqueLeads| + |duplicates| == |allLeads|
  {
    uniqueLeads, unique, duplicates := map[], [], [];
    for i := 0 to |allLeads|
      invariant Scanned(allLeads[..i], Key, uniqueLeads, unique, duplicates)
    {
      var lead := allLeads[i];
      var key := Key(lead);
      ScanStep(allLeads[..i], lead, Key, uniqueLeads, unique, duplicates);
      if key in uniqueLeads {
        duplicates := duplicates + [lead];
      } else {
        uniqueLeads := uniqueLeads[key := lead];
        unique := unique + [lead];
      }
      TakeSnoc(allLeads, i);
    }
    assert allLeads[..|allLeads|] == allLeads;
    KeepFirstDistinct(allLeads, Key);
    DistinctKeyCount(unique, Key);
    PartitionCount(allLeads, Key);
  }

  /** The decision after the scan (lines 58-61) and the rows the rebuilt table receives. */
  method CleanDuplicates(allLeads: seq<Row>) returns (c: Cleanup)
    ensures c == CleanupOf(allLeads)
  {
    var uniqueLeads, unique, duplicates := IdentifyDuplicates(allLeads);
    if |duplicates| == 0 {
      return AlreadyClean;
    }
    c := Rebuild(unique, |duplicates|);
  }

  /** Nothing is deleted exactly when no two fetched leads share a key; otherwise the inserted leads
      have pairwise distinct keys, are the first lead of each key in fetched order, cover every key,
      and as many leads are removed as the input has beyond them. */
  lemma CleanupSpec(allLeads: seq<Row>)
    ensures CleanupOf(allLeads).AlreadyClean? <==> DistinctKeys(allLeads, Key)
    ensures CleanupOf(allLeads).Rebuild? ==>
              var c := CleanupOf(allLeads);
              && DistinctKeys(c.inserted, Key)
              && c.inserted == FirstOccurrences(allLeads, Key)
              && IsSubsequence(c.inserted, allLeads)
              && (forall k :: KeyIn(c.inserted, Key, k) <==> KeyIn(allLeads, Key, k))
              && c.removed > 0
              && |c.inserted| + c.removed == |allLeads|
  {
    NoneDroppedIffDistinct(allLeads, Key);
    KeepFirstDistinct(allLeads, Key);
    KeepFirstIsFirstOccurrences(allLeads, Key);
    KeepFirstSubsequence(allLeads, Key);
    PartitionCount(allLeads, Key);
    forall k ensures KeyIn(KeepFirst(allLeads, Key), Key, k) <==> KeyIn(allLeads, Key, k) {
      KeepFirstKeys(allLeads, Key, k);
    }
  }

  /** Fetched newest first, the lead the rebuilt table keeps for a key is the newest with it. */
  lemma KeepsNewest(allLeads: seq<Row>, createdAt: Row -> int)
    requires forall i, j :: 0 <= i < j < |allLeads| ==> createdAt(allLeads[i]) >= createdAt(allLeads[j])
    ensures CleanupOf(allLeads).Rebuild? ==>
              forall j, i :: 0 <= j < |CleanupOf(allLeads).inserted| && 0 <= i < |allLeads|
                && Key(allLeads[i]) == Key(CleanupOf(allLeads).inserted[j])
                ==> createdAt(CleanupOf(allLeads).inserted[j]) >= createdAt(allLeads[i])
  {
    KeptRankHighest(allLeads, Key, createdAt);
  }

  /** Every set-aside lead shares its key with a lead the rebuilt table keeps. */
  lemma RemovedHaveKeptTwin(allLeads: seq<Row>)
    ensures forall d :: d in Dropped(allLeads, Key) ==>
              d in allLeads && KeyIn(KeepFirst(allLeads, Key), Key, Key(d))
  {
    DroppedHaveKeptKey(allLeads, Key);
  }
}
