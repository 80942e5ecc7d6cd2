/** Lead rows and the column resolver. A row is a JavaScript object (or a pandas record) from header
    names to cell text, kept as (key, value) pairs in key order, which `Object.keys` follows. */
module Columns {
  import opened Common
  import opened Text
  import opened Seqs

  type Row = seq<(string, string)>

  /** `Object.keys(row)`. */
  function Keys(row: Row): (ks: seq<string>)
    ensures |ks| == |row|
    ensures forall i :: 0 <= i < |row| ==> ks[i] == row[i].0
  {
    seq(|row|, i requires 0 <= i < |row| => row[i].0)
  }

  /** `Object.prototype.hasOwnProperty.call(row, k)`, and Python's `k in row`. */
  predicate HasKey(row: Row, k: string) {
    exists i :: 0 <= i < |row| && row[i].0 == k
  }

  /** An object never holds a key twice. */
  predicate UniqueKeys(row: Row) {
    forall i, j :: 0 <= i < j < |row| ==> row[i].0 != row[j].0
  }

  /** `row[k]`, None standing for `undefined`. */
  function Lookup(row: Row, k: string): (r: Option<string>)
    ensures r.Some? <==> HasKey(row, k)
  {
    if |row| == 0 then None
    else if row[0].0 == k then Some(row[0].1)
    else
      HasKeyTail(row, k);
      Lookup(row[1..], k)
  }

  /** A key of a non-empty row is its first key or a key of the rest. */
  lemma HasKeyTail(row: Row, k: string)
    requires |row| > 0
    ensures HasKey(row, k) <==> row[0].0 == k || HasKey(row[1..], k)
  {
    if HasKey(row, k) && row[0].0 != k {
      var i :| 0 <= i < |row| && row[i].0 == k;
      assert row[1..][i - 1].0 == k;
    }
    if HasKey(row[1..], k) {
      var i :| 0 <= i < |row[1..]| && row[1..][i].0 == k;
      assert row[i + 1].0 == k;
    }
  }

  /** In a row without repeated keys, the value under a key is the value paired with it. */
  lemma {:induction false} LookupAt(row: Row, i: nat)
    requires UniqueKeys(row) && i < |row|
    ensures Lookup(row, row[i].0) == Some(row[i].1)
  {
    if i > 0 {
      assert row[0].0 != row[i].0;
      assert UniqueKeys(row[1..]) by {
        forall a, b | 0 <= a < b < |row[1..]| ensures row[1..][a].0 != row[1..][b].0 {
          assert row[a + 1].0 != row[b + 1].0;
        }
      }
      LookupAt(row[1..], i - 1);
    }
  }

  /** `row[k] || ''`: the value under `k`, empty when the key is missing. */
  function Field(row: Row, k: string): string {
    Lookup(row, k).GetOr("")
  }

  /** The assignment `row[k] = v`: a new key goes last, an existing key keeps its place and takes
      the new value. */
  function Put(row: Row, k: string, v: string): (r: Row)
    ensures |r| == if HasKey(row, k) then |row| else |row| + 1
  {
    if |row| == 0 then [(k, v)]
    else if row[0].0 == k then [(k, v)] + row[1..]
    else
      HasKeyTail(row, k);
      [row[0]] + Put(row[1..], k, v)
  }

  /** After `row[k] = v`, `row[k]` is `v` and every other key reads as before. */
  lemma {:induction false} PutLookup(row: Row, k: string, v: string, j: string)
    ensures Lookup(Put(row, k, v), j) == if j == k then Some(v) else Lookup(row, j)
  {
    if |row| > 0 && row[0].0 != k {
      PutLookup(row[1..], k, v, j);
    }
  }

  /** The keys after `row[k] = v`: the same keys in the same order, `k` appended when it is new. */
  lemma {:induction false} PutKeys(row: Row, k: string, v: string)
    ensures Keys(Put(row, k, v)) == if HasKey(row, k) then Keys(row) else Keys(row) + [k]
  {
    if |row| > 0 && row[0].0 != k {
      var rest := Put(row[1..], k, v);
      PutKeys(row[1..], k, v);
      HasKeyTail(row, k);
      assert row == [row[0]] + row[1..];
      KeysCons(row[0], row[1..]);
      KeysCons(row[0], rest);
    } else if |row| > 0 {
      assert row == [row[0]] + row[1..];
      KeysCons(row[0], row[1..]);
      KeysCons((k, v), row[1..]);
    }
  }

  lemma KeysCons(p: (string, string), rest: Row)
    ensures Keys([p] + rest) == [p.0] + Keys(rest)
  {
  }

  lemma HasKeyIffInKeys(row: Row, k: string)
    ensures HasKey(row, k) <==> k in Keys(row)
  {
    if k in Keys(row) {
      var i :| 0 <= i < |Keys(row)| && Keys(row)[i] == k;
      assert row[i].0 == k;
    }
  }

  /** Assignment never creates a repeated key. */
  lemma PutUnique(row: Row, k: string, v: string)
    requires UniqueKeys(row)
    ensures UniqueKeys(Put(row, k, v))
  {
    var r := Put(row, k, v);
    PutKeys(row, k, v);
    HasKeyIffInKeys(row, k);
    forall i, j | 0 <= i < j < |r| ensures r[i].0 != r[j].0 {
      assert Keys(r)[i] == r[i].0 && Keys(r)[j] == r[j].0;
      if j < |row| {
        assert Keys(row)[i] != Keys(row)[j];
      } else {
        assert Keys(row)[i] in Keys(row);
      }
    }
  }

  /** `vals[i] || ''`: the `i`-th field of a line, empty when the line is short. */
  function ValueAt(vals: seq<string>, i: nat): string {
    if i < |vals| then vals[i] else ""
  }

  /** `headers.forEach((h, i) => row[h] = vals[i] || '')`, the field under each header in turn. */
  function BuildRow(headers: seq<string>, vals: seq<string>): Row
    decreases |headers|
  {
    if |headers| == 0 then []
    else Put(BuildRow(headers[..|headers| - 1], vals), headers[|headers| - 1], ValueAt(vals, |headers| - 1))
  }

  /** The last index at which `k` occurs in `hs`, or |hs| when it does not. */
  function LastIndex(hs: seq<string>, k: string): (i: nat)
    ensures i <= |hs|
    ensures i < |hs| ==> hs[i] == k && forall j :: i < j < |hs| ==> hs[j] != k
    ensures i == |hs| ==> k !in hs
    decreases |hs|
  {
    if |hs| == 0 then 0
    else if hs[|hs| - 1] == k then |hs| - 1
    else
      var i := LastIndex(hs[..|hs| - 1], k);
      if i == |hs| - 1 then |hs| else i
  }

  /** `Self` as a key function: a header is its own key. */
  function Self(s: string): string {
    s
  }

  /** A built row has one key per distinct header, in order of first appearance: a repeated header
      keeps its first position. */
  lemma {:induction false} BuildRowKeys(headers: seq<string>, vals: seq<string>)
    ensures Keys(BuildRow(headers, vals)) == KeepFirst(headers, Self)
    decreases |headers|
  {
    if |headers| > 0 {
      var init := headers[..|headers| - 1];
      var h := headers[|headers| - 1];
      var prev := BuildRow(init, vals);
      BuildRowKeys(init, vals);
      PutKeys(prev, h, ValueAt(vals, |headers| - 1));
      HasKeyIffInKeys(prev, h);
      KeepFirstSelf(init, h);
    }
  }

  /** A built row never holds a key twice. */
  lemma {:induction false} BuildRowUnique(headers: seq<string>, vals: seq<string>)
    ensures UniqueKeys(BuildRow(headers, vals))
    decreases |headers|
  {
    if |headers| > 0 {
      BuildRowUnique(headers[..|headers| - 1], vals);
      PutUnique(BuildRow(headers[..|headers| - 1], vals), headers[|headers| - 1], ValueAt(vals, |headers| - 1));
    }
  }

  /** Under each header a built row holds the field of the header's last occurrence: a repeated
      header overwrites the value. Any other key is missing. */
  lemma {:induction false} BuildRowLookup(headers: seq<string>, vals: seq<string>, k: string)
    ensures Lookup(BuildRow(headers, vals), k)
         == if k in headers then Some(ValueAt(vals, LastIndex(headers, k))) else None
    decreases |headers|
  {
    if |headers| > 0 {
      var init := headers[..|headers| - 1];
      var h := headers[|headers| - 1];
      BuildRowLookup(init, vals, k);
      PutLookup(BuildRow(init, vals), h, ValueAt(vals, |headers| - 1), k);
      assert headers == init + [h];
      assert k in headers <==> k in init || k == h;
    }
  }

  /** A header is among the kept keys of earlier headers exactly when it occurs among them. */
  lemma KeepFirstSelf(hs: seq<string>, h: string)
    ensures KeyIn(KeepFirst(hs, Self), Self, h) <==> h in KeepFirst(hs, Self)
    ensures h in KeepFirst(hs, Self) <==> h in hs
  {
    var r := KeepFirst(hs, Self);
    KeepFirstKeys(hs, Self, h);
    if h in r {
      var i :| 0 <= i < |r| && r[i] == h;
      assert Self(r[i]) == h;
    }
    if KeyIn(r, Self, h) {
      var i :| 0 <= i < |r| && Self(r[i]) == h;
      assert r[i] in r;
    }
    if h in hs {
      var i :| 0 <= i < |hs| && hs[i] == h;
      assert Self(hs[i]) == h;
    }
    if KeyIn(hs, Self, h) {
      var i :| 0 <= i < |hs| && Self(hs[i]) == h;
      assert hs[i] in hs;
    }
  }

  /** A built row has a key exactly for each header. */
  lemma BuildRowHasKey(headers: seq<string>, vals: seq<string>, k: string)
    ensures HasKey(BuildRow(headers, vals), k) <==> k in headers
  {
    BuildRowLookup(headers, vals, k);
  }

  // ----- The resolver `getColumnValue` -----

  /** Pass 2: `key.toLowerCase().trim() === name.toLowerCase().trim()`. */
  predicate LooseMatch(key: string, name: string) {
    Trim(ToLower(key)) == Trim(ToLower(name))
  }

  /** Pass 3: `key.toLowerCase().includes(name.toLowerCase()) ||
      name.toLowerCase().includes(key.toLowerCase())`. */
  predicate PartialMatch(key: string, name: string) {
    Contains(ToLower(key), ToLower(name)) || Contains(ToLower(name), ToLower(key))
  }

  /** The index `keys.find` stops at, from index `j` on: the first matching key, or |keys|. */
  function FindFrom(keys: seq<string>, matches: (string, string) -> bool, name: string, j: nat): (i: nat)
    requires j <= |keys|
    ensures j <= i <= |keys|
    ensures forall l :: j <= l < i ==> !matches(keys[l], name)
    ensures i < |keys| ==> matches(keys[i], name)
    decreases |keys| - j
  {
    if j == |keys| then j
    else if matches(keys[j], name) then j
    else FindFrom(keys, matches, name, j + 1)
  }

  /** `keys.find(key => <pass matches key and name>)`: the first matching key. */
  function Find(keys: seq<string>, matches: (string, string) -> bool, name: string): Option<string> {
    var i := FindFrom(keys, matches, name, 0);
    if i < |keys| then Some(keys[i]) else None
  }

  /** The first pass, `for (name of names) if (hasOwnProperty(row, name)) return row[name]`:
      the first candidate that is a key. */
  function ExactPass(row: Row, names: seq<string>): (r: Option<string>)
    ensures r.Some? ==> HasKey(row, r.value) && r.value in names
  {
    if |names| == 0 then None
    else if HasKey(row, names[0]) then Some(names[0])
    else ExactPass(row, names[1..])
  }

  /** A fallback pass, `for (name of names) { const k = keys.find(...); if (k) return row[k] }`:
      the key found for the first candidate whose search finds a non-empty key. */
  function FallbackPass(keys: seq<string>, names: seq<string>, matches: (string, string) -> bool): (r: Option<string>)
    ensures r.Some? ==> r.value in keys && r.value != ""
  {
    if |names| == 0 then None
    else
      var k := Find(keys, matches, names[0]);
      if k.Some? && k.value != "" then k else FallbackPass(keys, names[1..], matches)
  }

  /** The key `getColumnValue(row, names)` reads, or None when it returns `''` unmatched. */
  function ResolveKey(row: Row, names: seq<string>): (r: Option<string>)
    ensures r.Some? ==> HasKey(row, r.value)
  {
    var e := ExactPass(row, names);
    if e.Some? then e
    else
      var l := FallbackPass(Keys(row), names, LooseMatch);
      var p := FallbackPass(Keys(row), names, PartialMatch);
      HasKeyIffInKeys(row, if l.Some? then l.value else "");
      HasKeyIffInKeys(row, if p.Some? then p.value else "");
      if l.Some? then l else p
  }

  /** `getColumnValue(row, names)` of the dashboard (and its copy in the campaign extractor). */
  function ColumnValue(row: Row, names: seq<string>): string {
    match ResolveKey(row, names)
    case Some(k) => Field(row, k)
    case None => ""
  }

  /** `keys.find`, as the loop it runs. */
  method FindKey(keys: seq<string>, matches: (string, string) -> bool, name: string) returns (r: Option<string>)
    ensures r == Find(keys, matches, name)
  {
    var j := 0;
    while j < |keys|
      invariant j <= |keys|
      invariant FindFrom(keys, matches, name, 0) == FindFrom(keys, matches, name, j)
    {
      if matches(keys[j], name) {
        return Some(keys[j]);
      }
      j := j + 1;
    }
    return None;
  }

  /** The resolver as the source runs it: three loops over the candidates with early returns. */
  method GetColumnValue(row: Row, names: seq<string>) returns (v: string)
    ensures v == ColumnValue(row, names)
  {
    for i := 0 to |names|
      invariant ExactPass(row, names) == ExactPass(row, names[i..])
    {
      assert names[i..][1..] == names[i + 1..];
      if HasKey(row, names[i]) {
        return Field(row, names[i]);
      }
    }
    var keys := Keys(row);
    for i := 0 to |names|
      invariant FallbackPass(keys, names, LooseMatch) == FallbackPass(keys, names[i..], LooseMatch)
    {
      assert names[i..][1..] == names[i + 1..];
      var k := FindKey(keys, LooseMatch, names[i]);
      if k.Some? && k.value != "" {
        return Field(row, k.value);
      }
    }
    for i := 0 to |names|
      invariant FallbackPass(keys, names, PartialMatch) == FallbackPass(keys, names[i..], PartialMatch)
    {
      assert names[i..][1..] == names[i + 1..];
      var k := FindKey(keys, PartialMatch, names[i]);
      if k.Some? && k.value != "" {
        return Field(row, k.value);
      }
    }
    return "";
  }

  // ----- What the resolver promises -----

  /** An exact key beats every case-insensitive or partial match: when the `i`-th candidate is the
      first that is a key of the row, its value is returned. */
  lemma {:induction false} ExactMatchWins(row: Row, names: seq<string>, i: nat)
    requires i < |names| && HasKey(row, names[i])
    requires forall j :: 0 <= j < i ==> !HasKey(row, names[j])
    ensures ResolveKey(row, names) == Some(names[i])
    ensures ColumnValue(row, names) == Field(row, names[i])
  {
    ExactPassFirst(row, names, i);
  }

  lemma {:induction false} ExactPassFirst(row: Row, names: seq<string>, i: nat)
    requires i < |names| && HasKey(row, names[i])
    requires forall j :: 0 <= j < i ==> !HasKey(row, names[j])
    ensures ExactPass(row, names) == Some(names[i])
  {
    if i > 0 {
      ExactPassFirst(row, names[1..], i - 1);
    }
  }

  /** No candidate is a key exactly when the exact pass finds nothing. */
  lemma {:induction false} ExactPassNone(row: Row, names: seq<string>)
    ensures ExactPass(row, names).None? <==> forall n :: n in names ==> !HasKey(row, n)
  {
    if |names| > 0 {
      ExactPassNone(row, names[1..]);
      assert forall n :: n in names <==> n == names[0] || n in names[1..];
    }
  }

  /** A key equal to its candidate always matches partially. */
  lemma ContainsSelf(s: string)
    ensures Contains(s, s)
  {
    assert s[..|s|] == s;
  }

  /** The search for `name` finds nothing, or only the empty key, so the pass goes on. */
  predicate Declines(keys: seq<string>, matches: (string, string) -> bool, name: string) {
    var k := Find(keys, matches, name);
    k.None? || k.value == ""
  }

  /** Within a fallback pass, the candidate that finds a non-empty key first wins, with the first
      matching key in key order. */
  lemma {:induction false} FallbackFirst(keys: seq<string>, names: seq<string>, matches: (string, string) -> bool, i: nat, at: nat)
    requires i < |names| && at < |keys| && keys[at] != ""
    requires matches(keys[at], names[i])
    requires forall l :: 0 <= l < at ==> !matches(keys[l], names[i])
    requires forall j :: 0 <= j < i ==> Declines(keys, matches, names[j])
    ensures FallbackPass(keys, names, matches) == Some(keys[at])
  {
    if i == 0 {
      assert FindFrom(keys, matches, names[0], 0) == at by {
        FindFromIs(keys, matches, names[0], 0, at);
      }
    } else {
      assert Declines(keys, matches, names[0]);
      FallbackFirst(keys, names[1..], matches, i - 1, at);
    }
  }

  /** `find` stops at the first match. */
  lemma {:induction false} FindFromIs(keys: seq<string>, matches: (string, string) -> bool, name: string, j: nat, m: nat)
    requires j <= m < |keys| && matches(keys[m], name)
    requires forall l :: j <= l < m ==> !matches(keys[l], name)
    ensures FindFrom(keys, matches, name, j) == m
    decreases m - j
  {
    if j < m {
      FindFromIs(keys, matches, name, j + 1, m);
    }
  }

  /** `find` finds nothing exactly when no key matches. */
  lemma FindNone(keys: seq<string>, matches: (string, string) -> bool, name: string)
    ensures Find(keys, matches, name).None? <==> forall k :: k in keys ==> !matches(k, name)
  {
    var i := FindFrom(keys, matches, name, 0);
    if i == |keys| {
      forall k | k in keys ensures !matches(k, name) {
        var l :| 0 <= l < |keys| && keys[l] == k;
      }
    }
  }

  /** Over keys none of which is empty, a fallback pass finds nothing exactly when no key matches
      any candidate. */
  lemma {:induction false} FallbackNone(keys: seq<string>, names: seq<string>, matches: (string, string) -> bool)
    requires "" !in keys
    ensures FallbackPass(keys, names, matches).None?
        <==> forall n, k :: n in names && k in keys ==> !matches(k, n)
  {
    if |names| > 0 {
      FallbackNone(keys, names[1..], matches);
      FindNone(keys, matches, names[0]);
      var f := Find(keys, matches, names[0]);
      assert f.Some? ==> f.value in keys by {
        if f.Some? {
          var i := FindFrom(keys, matches, names[0], 0);
          assert keys[i] in keys;
        }
      }
      assert forall n :: n in names <==> n == names[0] || n in names[1..];
    }
  }

  /** When the row has no empty key, `getColumnValue` returns `''` unmatched exactly when no key
      matches any candidate case-insensitively or partially (an exact match is a partial one). */
  lemma ResolveNoneIff(row: Row, names: seq<string>)
    requires !HasKey(row, "")
    ensures ResolveKey(row, names).None?
        <==> forall n, k :: n in names && k in Keys(row) ==> !LooseMatch(k, n) && !PartialMatch(k, n)
  {
    var keys := Keys(row);
    HasKeyIffInKeys(row, "");
    ExactPassNone(row, names);
    FallbackNone(keys, names, LooseMatch);
    FallbackNone(keys, names, PartialMatch);
    var noLoose := forall n, k :: n in names && k in keys ==> !LooseMatch(k, n);
    var noPartial := forall n, k :: n in names && k in keys ==> !PartialMatch(k, n);
    assert noPartial ==> forall n :: n in names ==> !HasKey(row, n) by {
      if noPartial {
        forall n | n in names ensures !HasKey(row, n) {
          HasKeyIffInKeys(row, n);
          ContainsSelf(ToLower(n));
          assert PartialMatch(n, n);
        }
      }
    }
    assert ResolveKey(row, names).None? <==> noLoose && noPartial;
  }

  // ----- A candidate listed twice -----

  /** The exact pass over two lists in a row: the second is tried only when the first finds nothing. */
  lemma {:induction false} ExactPassAppend(row: Row, a: seq<string>, c: seq<string>)
    ensures ExactPass(row, a + c) == if ExactPass(row, a).Some? then ExactPass(row, a) else ExactPass(row, c)
  {
    if |a| == 0 {
      assert a + c == c;
    } else {
      assert (a + c)[1..] == a[1..] + c;
      ExactPassAppend(row, a[1..], c);
    }
  }

  lemma {:induction false} FallbackPassAppend(keys: seq<string>, a: seq<string>, c: seq<string>, matches: (string, string) -> bool)
    ensures FallbackPass(keys, a + c, matches)
         == if FallbackPass(keys, a, matches).Some? then FallbackPass(keys, a, matches) else FallbackPass(keys, c, matches)
  {
    if |a| == 0 {
      assert a + c == c;
    } else {
      assert (a + c)[1..] == a[1..] + c;
      FallbackPassAppend(keys, a[1..], c, matches);
    }
  }

  /** A fallback pass that finds nothing has every candidate decline. */
  lemma {:induction false} FallbackPassNone(keys: seq<string>, a: seq<string>, matches: (string, string) -> bool, x: string)
    requires FallbackPass(keys, a, matches).None? && x in a
    ensures Declines(keys, matches, x)
  {
    if a[0] != x {
      FallbackPassNone(keys, a[1..], matches, x);
    }
  }

  /** A pass tries a repeated candidate after its first occurrence has failed, so it fails again. */
  lemma RepeatedPasses(row: Row, a: seq<string>, x: string, b: seq<string>, matches: (string, string) -> bool)
    requires x in a
    ensures ExactPass(row, a + ([x] + b)) == ExactPass(row, a + b)
    ensures FallbackPass(Keys(row), a + ([x] + b), matches) == FallbackPass(Keys(row), a + b, matches)
  {
    var keys := Keys(row);
    ExactPassAppend(row, a, [x] + b);
    ExactPassAppend(row, a, b);
    FallbackPassAppend(keys, a, [x] + b, matches);
    FallbackPassAppend(keys, a, b, matches);
    assert ([x] + b)[0] == x && ([x] + b)[1..] == b;
    if ExactPass(row, a).None? {
      ExactPassNone(row, a);
    }
    if FallbackPass(keys, a, matches).None? {
      FallbackPassNone(keys, a, matches, x);
    }
  }

  /** Listing a candidate a second time, later, changes nothing `getColumnValue` returns. */
  lemma RepeatedCandidate(row: Row, a: seq<string>, x: string, b: seq<string>)
    requires x in a
    ensures ColumnValue(row, a + [x] + b) == ColumnValue(row, a + b)
  {
    assert a + [x] + b == a + ([x] + b);
    RepeatedPasses(row, a, x, b, LooseMatch);
    RepeatedPasses(row, a, x, b, PartialMatch);
  }

  /** Without any match `getColumnValue` returns `''`. */
  lemma UnmatchedIsEmpty(row: Row, names: seq<string>)
    requires ResolveKey(row, names).None?
    ensures ColumnValue(row, names) == ""
  {
  }

  /** As written, the test `if (k)` rejects an empty key that `find` returns, and `find` returns the
      first match: a row whose first key is empty (a blank header) answers no partial search, since
      the empty key is part of every name. Without an exact or case-insensitive match the resolver
      then returns `''` even when a later key would match partially. */
  lemma EmptyFirstKeyHidesPartialMatches(row: Row, names: seq<string>)
    requires |row| > 0 && row[0].0 == ""
    ensures FallbackPass(Keys(row), names, PartialMatch).None?
  {
    var keys := Keys(row);
    forall n | n in names ensures Find(keys, PartialMatch, n) == Some("") {
      assert ToLower("") == "";
      assert Contains(ToLower(n), ToLower(keys[0])) by {
        assert ToLower(n)[..0] == "";
      }
    }
    EmptyFindsFallNone(keys, names);
  }

  lemma {:induction false} EmptyFindsFallNone(keys: seq<string>, names: seq<string>)
    requires forall n :: n in names ==> Find(keys, PartialMatch, n) == Some("")
    ensures FallbackPass(keys, names, PartialMatch).None?
  {
    if |names| > 0 {
      assert names[0] in names;
      assert forall n :: n in names[1..] ==> n in names;
      EmptyFindsFallNone(keys, names[1..]);
    }
  }

  // ----- The Python script's resolver -----

  /** `get_column_value` of check_adset_sales_data.py: the value under the first candidate that is a
      key, else `''`; there is no case-insensitive or partial fallback. */
  function PyColumnValue(row: Row, names: seq<string>): string {
    match ExactPass(row, names)
    case Some(k) => Field(row, k)
    case None => ""
  }

  /** `get_column_value` as the loop it runs. */
  method GetColumnValuePy(row: Row, names: seq<string>) returns (v: string)
    ensures v == PyColumnValue(row, names)
  {
    for i := 0 to |names|
      invariant ExactPass(row, names) == ExactPass(row, names[i..])
    {
      assert names[i..][1..] == names[i + 1..];
      if HasKey(row, names[i]) {
        return Field(row, names[i]);
      }
    }
    return "";
  }

  /** The two resolvers agree whenever some candidate is a key; otherwise the Python one returns
      `''` while the dashboard's may still find a case-insensitive or partial match. */
  lemma PythonAgreesOnExactKeys(row: Row, names: seq<string>)
    ensures ExactPass(row, names).Some? ==> PyColumnValue(row, names) == ColumnValue(row, names)
    ensures ExactPass(row, names).None? ==> PyColumnValue(row, names) == ""
  {
  }
}
