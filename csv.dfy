/** The dashboard's CSV reader (`parseCSV` in src/components/Dashboard.tsx): data lines, the
    delimiter guess, the quote-aware field splitter, one row per line under the trimmed headers,
    and the lead filter that keeps rows with a well-formed, not yet seen e-mail. */
module Csv {
  import opened Common
  import opened Text
  import opened Seqs
  import opened Columns

  // ----- Lines and delimiter -----

  predicate NonBlank(l: string) {
    Trim(l) != ""
  }

  /** `text.split('\n').filter(l => l.trim())`: the non-blank lines. */
  function DataLines(text: string): (lines: seq<string>)
    ensures forall l :: l in lines ==> NonBlank(l) && '\n' !in l
  {
    Filter(Split(text, '\n'), NonBlank)
  }

  /** The separator guessed from the first line: `;` if it has one, else a tab if it has one, else
      a comma. */
  function Delimiter(first: string): (sep: char)
    ensures sep == ';' <==> ';' in first
    ensures sep == '\t' <==> ';' !in first && '\t' in first
    ensures sep == ',' <==> ';' !in first && '\t' !in first
  {
    if ';' in first then ';' else if '\t' in first then '\t' else ','
  }

  // ----- Fields -----

  /** `f.replace(/^"|"$/g, '')`: one leading and one trailing double quote removed (a lone quote
      counts once). */
  function StripQuotes(s: string): (r: string)
    ensures '"' !in s ==> r == s
    ensures |s| >= 2 && s[0] == '"' && s[|s| - 1] == '"' ==> r == s[1..|s| - 1]
  {
    var a := if |s| > 0 && s[0] == '"' then 1 else 0;
    var b := if |s| > a && s[|s| - 1] == '"' then |s| - 1 else |s|;
    s[a..b]
  }

  /** The clean-up of one field: `f.trim().replace(/^"|"$/g, '')`. */
  function Finalize(f: string): string {
    StripQuotes(Trim(f))
  }

  /** The raw pieces of a comma-separated line, read from a state inside (`inQ`) or outside double
      quotes: a quote toggles the state and is dropped, a comma outside quotes ends a piece, any
      other character belongs to the current piece. */
  function Pieces(s: string, inQ: bool): (ps: seq<string>)
    ensures |ps| >= 1
    ensures forall i :: 0 <= i < |ps| ==> '"' !in ps[i]
    decreases |s|
  {
    if |s| == 0 then [""]
    else if s[0] == '"' then Pieces(s[1..], !inQ)
    else if s[0] == ',' && !inQ then [""] + Pieces(s[1..], inQ)
    else
      var r := Pieces(s[1..], inQ);
      [[s[0]] + r[0]] + r[1..]
  }

  /** Each string trimmed. */
  function TrimAll(xs: seq<string>): (ys: seq<string>)
    ensures |ys| == |xs|
  {
    if |xs| == 0 then [] else [Trim(xs[0])] + TrimAll(xs[1..])
  }

  lemma {:induction false} TrimAllAt(xs: seq<string>, i: nat)
    requires i < |xs|
    ensures TrimAll(xs)[i] == Trim(xs[i])
  {
    if i > 0 {
      TrimAllAt(xs[1..], i - 1);
    }
  }

  /** Each field finalized: `fields.map(f => f.trim().replace(/^"|"$/g, ''))`. */
  function FinalizeAll(fs: seq<string>): (gs: seq<string>)
    ensures |gs| == |fs|
    decreases |fs|
  {
    if |fs| == 0 then [] else FinalizeAll(fs[..|fs| - 1]) + [Finalize(fs[|fs| - 1])]
  }

  lemma FinalizeAllSnoc(fs: seq<string>, f: string)
    ensures FinalizeAll(fs + [f]) == FinalizeAll(fs) + [Finalize(f)]
  {
    assert (fs + [f])[..|fs|] == fs;
  }

  lemma {:induction false} FinalizeAllAt(fs: seq<string>, i: nat)
    requires i < |fs|
    ensures FinalizeAll(fs)[i] == Finalize(fs[i])
    decreases |fs|
  {
    if i < |fs| - 1 {
      FinalizeAllAt(fs[..|fs| - 1], i);
    }
  }

  /** `line.replace(/\r/g, '').trim()`. */
  function CleanLine(line: string): string {
    Trim(RemoveChar(line, '\r'))
  }

  /** `parseLine(line)`: with a `;` or tab separator a plain split, with a comma the quote-aware
      split; every field then finalized. */
  function LineFields(line: string, sep: char): (fs: seq<string>)
    ensures |fs| >= 1
  {
    var clean := CleanLine(line);
    if sep != ',' then FinalizeAll(Split(clean, sep)) else FinalizeAll(Pieces(clean, false))
  }

  /** The pieces read so far (`done`), the current one (`cur`) and those still to come (`rest`). */
  function Glue(done: seq<string>, cur: string, rest: seq<string>): seq<string>
    requires |rest| >= 1
  {
    done + [cur + rest[0]] + rest[1..]
  }

  /** `parseLine` as the source runs it: a plain split for `;` and tab, a character loop for the
      comma. */
  method ParseLine(line: string, sep: char) returns (fields: seq<string>)
    ensures fields == LineFields(line, sep)
  {
    var clean := CleanLine(line);
    if sep != ',' {
      return FinalizeAll(Split(clean, sep));
    }
    var res: seq<string> := [];
    ghost var raw: seq<string> := [];
    var cur := "";
    var inQ := false;
    assert Glue([], "", Pieces(clean, false)) == Pieces(clean, false) by {
      var p := Pieces(clean, false);
      assert "" + p[0] == p[0];
      assert [] + [p[0]] + p[1..] == p;
    }
    assert clean[0..] == clean;
    for i := 0 to |clean|
      invariant res == FinalizeAll(raw)
      invariant Glue(raw, cur, Pieces(clean[i..], inQ)) == Pieces(clean, false)
    {
      var ch := clean[i];
      PiecesAt(clean, i, inQ);
      var rest := Pieces(clean[i + 1..], inQ);
      if ch == '"' {
        inQ := !inQ;
      } else if ch == ',' && !inQ {
        GlueComma(raw, cur, rest);
        FinalizeAllSnoc(raw, cur);
        res := res + [Finalize(cur)];
        raw := raw + [cur];
        cur := "";
      } else {
        GlueChar(raw, cur, ch, rest);
        cur := cur + [ch];
      }
    }
    assert clean[|clean|..] == [];
    GlueEnd(raw, cur);
    FinalizeAllSnoc(raw, cur);
    res := res + [Finalize(cur)];
    return res;
  }

  /** One step of the quote-aware split at index `i`. */
  lemma PiecesAt(s: string, i: nat, inQ: bool)
    requires i < |s|
    ensures Pieces(s[i..], inQ)
         == if s[i] == '"' then Pieces(s[i + 1..], !inQ)
            else if s[i] == ',' && !inQ then [""] + Pieces(s[i + 1..], inQ)
            else [[s[i]] + Pieces(s[i + 1..], inQ)[0]] + Pieces(s[i + 1..], inQ)[1..]
  {
    assert s[i..][0] == s[i] && s[i..][1..] == s[i + 1..];
  }

  lemma GlueComma(done: seq<string>, cur: string, rest: seq<string>)
    requires |rest| >= 1
    ensures Glue(done, cur, [""] + rest) == Glue(done + [cur], "", rest)
  {
    assert ([""] + rest)[0] == "" && ([""] + rest)[1..] == rest;
    assert cur + "" == cur && "" + rest[0] == rest[0];
    assert done + [cur] + rest == done + [cur] + [rest[0]] + rest[1..];
  }

  lemma GlueChar(done: seq<string>, cur: string, c: char, rest: seq<string>)
    requires |rest| >= 1
    ensures Glue(done, cur, [[c] + rest[0]] + rest[1..]) == Glue(done, cur + [c], rest)
  {
    assert cur + ([c] + rest[0]) == (cur + [c]) + rest[0];
  }

  lemma GlueEnd(done: seq<string>, cur: string)
    ensures Glue(done, cur, [""]) == done + [cur]
  {
    assert cur + "" == cur;
  }

  /** Without double quotes, the quote-aware split is the plain split at commas. */
  lemma {:induction false} PiecesWithoutQuotes(s: string)
    requires '"' !in s
    ensures Pieces(s, false) == Split(s, ',')
    decreases |s|
  {
    if |s| > 0 {
      assert s[0] in s;
      assert forall c :: c in s[1..] ==> c in s;
      PiecesWithoutQuotes(s[1..]);
    }
  }

  /** Inside quotes, commas are text: a quote-free run stays in the current piece. */
  lemma {:induction false} QuotedRun(a: string, t: string)
    requires '"' !in a
    ensures Pieces(a + t, true) == Glue([], a, Pieces(t, true))
    decreases |a|
  {
    var p := Pieces(t, true);
    if |a| == 0 {
      assert a + t == t;
      assert "" + p[0] == p[0];
      assert [] + [p[0]] + p[1..] == p;
    } else {
      assert a[0] in a;
      assert forall c :: c in a[1..] ==> c in a;
      var s := a + t;
      assert s[1..] == a[1..] + t;
      QuotedRun(a[1..], t);
      var r := Pieces(s[1..], true);
      assert r == [a[1..] + p[0]] + p[1..];
      assert r[0] == a[1..] + p[0] && r[1..] == p[1..];
      PiecesText(s, true);
      assert [a[0]] + (a[1..] + p[0]) == a + p[0];
    }
  }

  /** A character other than a quote or a splitting comma joins the first piece. */
  lemma PiecesText(s: string, inQ: bool)
    requires |s| > 0 && s[0] != '"' && (s[0] != ',' || inQ)
    ensures Pieces(s, inQ) == [[s[0]] + Pieces(s[1..], inQ)[0]] + Pieces(s[1..], inQ)[1..]
  {
  }

  /** A quoted field keeps its commas: `"a,b"` is the one field `a,b`. */
  lemma QuotedFieldIsOnePiece(a: string)
    requires '"' !in a
    ensures Pieces(['"'] + a + ['"'], false) == [a]
  {
    var s := ['"'] + a + ['"'];
    assert s[1..] == a + ['"'];
    QuotedRun(a, ['"']);
    assert ['"'][1..] == [];
    assert a + "" == a;
  }

  /** A field that came out of the quote-aware split is only trimmed: it has no quotes to strip. */
  lemma CommaFieldIsTrimmed(p: string)
    requires '"' !in p
    ensures Finalize(p) == Trim(p)
  {
    if '"' in Trim(p) {
      TrimChars(p, IsSpace, '"');
    }
  }

  /** Without double quotes, a comma line's fields are the trimmed pieces of a plain split. */
  lemma CommaLineWithoutQuotes(line: string)
    requires '"' !in CleanLine(line)
    ensures LineFields(line, ',') == TrimAll(Split(CleanLine(line), ','))
  {
    var ps := Split(CleanLine(line), ',');
    PiecesWithoutQuotes(CleanLine(line));
    forall i | 0 <= i < |ps| ensures FinalizeAll(ps)[i] == TrimAll(ps)[i] {
      FinalizeAllAt(ps, i);
      TrimAllAt(ps, i);
      CommaFieldIsTrimmed(ps[i]);
    }
  }

  // ----- Rows -----

  /** The row keys: `h.trim()` for each header. */
  function HeaderKeys(first: string, sep: char): seq<string> {
    TrimAll(LineFields(first, sep))
  }

  /** `headers.forEach((h, idx) => row[h.trim()] = (vals[idx] || '').trim())`. */
  function RowOf(keys: seq<string>, line: string, sep: char): Row {
    BuildRow(keys, TrimAll(LineFields(line, sep)))
  }

  /** One row per line, in order. */
  function RowsOf(lines: seq<string>, keys: seq<string>, sep: char): seq<Row> {
    Map(lines, (line: string) => RowOf(keys, line, sep))
  }

  /** The rows of one more line are the rows so far and that line's row. */
  lemma RowsOfSnoc(lines: seq<string>, i: nat, keys: seq<string>, sep: char)
    requires i < |lines|
    ensures RowsOf(lines[..i + 1], keys, sep) == RowsOf(lines[..i], keys, sep) + [RowOf(keys, lines[i], sep)]
  {
    TakeSnoc(lines, i);
    MapSnoc(lines[..i], lines[i], (line: string) => RowOf(keys, line, sep));
  }

  /** The e-mail headers the reader accepts. */
  const EmailAliases: seq<string> := ["email", "Email", "EMAIL", "e-mail", "E-mail", "E-MAIL"]

  /** `headers.some(h => emailCol.includes(h.trim()))`. */
  predicate HasEmailHeader(keys: seq<string>) {
    exists i :: 0 <= i < |keys| && keys[i] in EmailAliases
  }

  /** The regular expression `^[^\s@]+@[^\s@]+\.[^\s@]+$`: no white space, exactly one `@` with text
      before it, and after it a dot with text on both sides. */
  predicate ValidEmail(e: string) {
    exists p, d :: 0 < p < |e| && p + 1 < d < |e| - 1 && e[p] == '@' && e[d] == '.'
                   && forall i :: 0 <= i < |e| ==> !IsSpace(e[i]) && (e[i] == '@' ==> i == p)
  }

  /** `Object.values(row).some(v => v && v.length > 0)`. */
  predicate HasValue(row: Row) {
    exists i :: 0 <= i < |row| && row[i].1 != ""
  }

  /** The e-mail of a row, trimmed: `getColumnValue(row, emailCol).trim()`. */
  function Email(row: Row): string {
    Trim(ColumnValue(row, EmailAliases))
  }

  /** A row the reader keeps, before the duplicate test: some value, and a non-blank well-formed
      e-mail. */
  predicate Accepted(row: Row) {
    HasValue(row) && Email(row) != "" && ValidEmail(Email(row))
  }

  /** The duplicate key: the trimmed, lower-cased e-mail. */
  function EmailKey(row: Row): string {
    ToLower(Email(row))
  }

  datatype CsvError = MissingEmailColumn

  /** The rows of every data line after the header line. */
  function CandidateRows(text: string): seq<Row> {
    var lines := DataLines(text);
    if |lines| == 0 then []
    else
      var sep := Delimiter(lines[0]);
      RowsOf(lines[1..], HeaderKeys(lines[0], sep), sep)
  }

  /** What `parseCSV(text)` returns, its exception being the error. */
  function CsvRows(text: string): Result<seq<Row>, CsvError> {
    var lines := DataLines(text);
    if |lines| == 0 then Ok([])
    else if !HasEmailHeader(HeaderKeys(lines[0], Delimiter(lines[0]))) then Err(MissingEmailColumn)
    else Ok(KeepFirst(Filter(CandidateRows(text), Accepted), EmailKey))
  }

  /** The row of one line, filled in as the source does, header by header. */
  method FillRow(keys: seq<string>, vals: seq<string>) returns (row: Row)
    ensures row == BuildRow(keys, TrimAll(vals))
  {
    row := [];
    ghost var tvals := TrimAll(vals);
    for idx := 0 to |keys|
      invariant row == BuildRow(keys[..idx], tvals)
    {
      assert keys[..idx + 1][..idx] == keys[..idx];
      assert Trim("") == "" by {
        assert TrimWith("", IsSpace) == ""[TrimStart("", IsSpace)..TrimEnd("", IsSpace)];
      }
      if idx < |vals| {
        TrimAllAt(vals, idx);
      }
      assert ValueAt(tvals, idx) == Trim(ValueAt(vals, idx));
      row := Put(row, keys[idx], Trim(ValueAt(vals, idx)));
    }
    assert keys[..|keys|] == keys;
  }

  /** The tests one row goes through before the duplicate test, in the source's order: some value,
      a non-blank e-mail, a well-formed e-mail; and the row's duplicate key. */
  method AdmitRow(row: Row) returns (ok: bool, key: string)
    ensures ok == Accepted(row)
    ensures key == EmailKey(row)
  {
    var email := GetColumnValue(row, EmailAliases);
    key := ToLower(Trim(email));
    if !HasValue(row) {
      return false, key;
    }
    if Trim(email) == "" {
      return false, key;
    }
    if !ValidEmail(Trim(email)) {
      return false, key;
    }
    return true, key;
  }

  /** The row of one data line: its fields under the header keys. */
  method ReadRow(keys: seq<string>, line: string, sep: char) returns (row: Row)
    ensures row == RowOf(keys, line, sep)
  {
    var vals := ParseLine(line, sep);
    row := FillRow(keys, vals);
  }

  /** The loop of `parseCSV` over the data lines after the header line, with the set of e-mails
      seen so far. */
  method ReadRows(lines: seq<string>, keys: seq<string>, sep: char) returns (data: seq<Row>)
    ensures data == KeepFirst(Filter(RowsOf(lines, keys, sep), Accepted), EmailKey)
  {
    data := [];
    var seen: set<string> := {};
    for i := 0 to |lines|
      invariant data == KeepFirst(Filter(RowsOf(lines[..i], keys, sep), Accepted), EmailKey)
      invariant seen == KeySet(data, EmailKey)
    {
      var row := ReadRow(keys, lines[i], sep);
      RowsOfSnoc(lines, i, keys, sep);
      var ok, key := AdmitRow(row);
      ghost var data0, seen0 := data, seen;
      if ok && key !in seen {
        data := data + [row];
        seen := seen + {key};
      }
      KeepFirstStep(RowsOf(lines[..i], keys, sep), row, Accepted, EmailKey, ok, key, data0, seen0, data, seen);
    }
    assert lines[..|lines|] == lines;
  }

  /** `parseCSV` as the source runs it: the header line, then one pass over the other lines. */
  method ParseCsv(text: string) returns (r: Result<seq<Row>, CsvError>)
    ensures r == CsvRows(text)
  {
    var lines := DataLines(text);
    if |lines| == 0 {
      return Ok([]);
    }
    var sep := Delimiter(lines[0]);
    var headers := ParseLine(lines[0], sep);
    var keys := TrimAll(headers);
    if !HasEmailHeader(keys) {
      return Err(MissingEmailColumn);
    }
    var data := ReadRows(lines[1..], keys, sep);
    return Ok(data);
  }

  // ----- What the reader promises -----

  /** A file without a non-blank line reads as no leads. */
  lemma EmptyFileHasNoLeads(text: string)
    requires DataLines(text) == []
    ensures CsvRows(text) == Ok([])
  {
  }

  /** A file whose header line has no e-mail header is refused, and only such a file. */
  lemma RefusedIffNoEmailHeader(text: string)
    requires DataLines(text) != []
    ensures CsvRows(text).Err?
        <==> !HasEmailHeader(HeaderKeys(DataLines(text)[0], Delimiter(DataLines(text)[0])))
  {
  }

  /** The leads read: every one well-formed, no two with the same e-mail (ignoring case and
      surrounding space), in file order, and each the first accepted row of its e-mail. */
  lemma LeadsSpec(text: string, leads: seq<Row>)
    requires CsvRows(text) == Ok(leads)
    ensures forall r :: r in leads ==> Accepted(r)
    ensures DistinctKeys(leads, EmailKey)
    ensures IsSubsequence(leads, CandidateRows(text))
    ensures leads == FirstOccurrences(Filter(CandidateRows(text), Accepted), EmailKey)
  {
    if DataLines(text) != [] {
      assert leads == KeepFirst(Filter(CandidateRows(text), Accepted), EmailKey);
      KeptAreFirstAccepted(CandidateRows(text), leads);
    }
  }

  lemma KeptAreFirstAccepted(all: seq<Row>, leads: seq<Row>)
    requires leads == KeepFirst(Filter(all, Accepted), EmailKey)
    ensures forall r :: r in leads ==> Accepted(r)
    ensures DistinctKeys(leads, EmailKey)
    ensures IsSubsequence(leads, all)
    ensures leads == FirstOccurrences(Filter(all, Accepted), EmailKey)
  {
    var acc := Filter(all, Accepted);
    KeepFirstDistinct(acc, EmailKey);
    KeepFirstIsFirstOccurrences(acc, EmailKey);
    KeepFirstSubsequence(acc, EmailKey);
    FilterSubsequence(all, Accepted);
    SubsequenceTrans(leads, acc, all);
    KeepFirstSubset(acc, EmailKey);
  }

  /** No accepted lead is lost except as a duplicate: every accepted row's e-mail is among the
      leads read. */
  lemma EveryEmailRepresented(text: string, leads: seq<Row>, r: Row)
    requires CsvRows(text) == Ok(leads)
    requires r in CandidateRows(text) && Accepted(r)
    ensures KeyIn(leads, EmailKey, EmailKey(r))
  {
    if DataLines(text) != [] {
      assert leads == KeepFirst(Filter(CandidateRows(text), Accepted), EmailKey);
      AcceptedKept(CandidateRows(text), leads, r);
    }
  }

  lemma AcceptedKept(all: seq<Row>, leads: seq<Row>, r: Row)
    requires leads == KeepFirst(Filter(all, Accepted), EmailKey)
    requires r in all && Accepted(r)
    ensures KeyIn(leads, EmailKey, EmailKey(r))
  {
    var acc := Filter(all, Accepted);
    FilterKeeps(all, Accepted, r);
    var i :| 0 <= i < |acc| && acc[i] == r;
    assert EmailKey(acc[i]) == EmailKey(r);
    KeepFirstKeys(acc, EmailKey, EmailKey(r));
  }

  /** Keeping first occurrences keeps only elements of the input. */
  lemma {:induction false} KeepFirstSubset<T, K>(xs: seq<T>, key: T -> K)
    ensures forall y :: y in KeepFirst(xs, key) ==> y in xs
    decreases |xs|
  {
    if |xs| > 0 {
      KeepFirstSubset(xs[..|xs| - 1], key);
      assert forall y :: y in xs[..|xs| - 1] ==> y in xs;
    }
  }

  /** Every row read under the keys `keys` has a key exactly when `keys` has it. */
  lemma RowsOfKeys(lines: seq<string>, keys: seq<string>, sep: char, k: string)
    ensures forall r :: r in RowsOf(lines, keys, sep) ==> (HasKey(r, k) <==> k in keys)
  {
    var rows := RowsOf(lines, keys, sep);
    forall r | r in rows ensures HasKey(r, k) <==> k in keys {
      var i :| 0 <= i < |rows| && rows[i] == r;
      BuildRowHasKey(keys, TrimAll(LineFields(lines[i], sep)), k);
    }
  }

  /** A lead has a key exactly when the header line has it (after trimming). */
  lemma LeadKeys(text: string, leads: seq<Row>, k: string)
    requires CsvRows(text) == Ok(leads)
    requires DataLines(text) != []
    ensures forall r :: r in leads
              ==> (HasKey(r, k) <==> k in HeaderKeys(DataLines(text)[0], Delimiter(DataLines(text)[0])))
  {
    var lines := DataLines(text);
    var sep := Delimiter(lines[0]);
    var keys := HeaderKeys(lines[0], sep);
    var cand := RowsOf(lines[1..], keys, sep);
    assert leads == KeepFirst(Filter(cand, Accepted), EmailKey);
    KeepFirstMembers(Filter(cand, Accepted), EmailKey);
    RowsOfKeys(lines[1..], keys, sep, k);
  }

  /** Every lead's e-mail is read from the first accepted e-mail spelling that the header line has:
      as each lead has exactly the header keys, the resolver's exact pass stops there. */
  lemma LeadEmailFromFirstAlias(text: string, leads: seq<Row>, i: nat)
    requires CsvRows(text) == Ok(leads)
    requires DataLines(text) != []
    requires i < |EmailAliases| && EmailAliases[i] in HeaderKeys(DataLines(text)[0], Delimiter(DataLines(text)[0]))
    requires forall j :: 0 <= j < i ==> EmailAliases[j] !in HeaderKeys(DataLines(text)[0], Delimiter(DataLines(text)[0]))
    ensures forall r :: r in leads ==> Email(r) == Trim(Field(r, EmailAliases[i]))
  {
    forall r | r in leads ensures Email(r) == Trim(Field(r, EmailAliases[i])) {
      LeadKeys(text, leads, EmailAliases[i]);
      forall j | 0 <= j < i ensures !HasKey(r, EmailAliases[j]) {
        LeadKeys(text, leads, EmailAliases[j]);
      }
      ExactMatchWins(r, EmailAliases, i);
    }
  }

  lemma RowShape(keys: seq<string>, line: string, sep: char, k: string)
    ensures Keys(RowOf(keys, line, sep)) == KeepFirst(keys, Self)
    ensures UniqueKeys(RowOf(keys, line, sep))
    ensures Lookup(RowOf(keys, line, sep), k)
         == if k in keys then Some(ValueAt(TrimAll(LineFields(line, sep)), LastIndex(keys, k))) else None
  {
    BuildRowKeys(keys, TrimAll(LineFields(line, sep)));
    BuildRowUnique(keys, TrimAll(LineFields(line, sep)));
    BuildRowLookup(keys, TrimAll(LineFields(line, sep)), k);
  }

  /** A well-formed e-mail has at least five characters, no white space and one `@`. */
  lemma ValidEmailShape(e: string)
    requires ValidEmail(e)
    ensures |e| >= 5
    ensures forall i :: 0 <= i < |e| ==> !IsSpace(e[i])
    ensures multiset(e)['@'] == 1
  {
    var p, d :| 0 < p < |e| && p + 1 < d < |e| - 1 && e[p] == '@' && e[d] == '.'
                && forall i :: 0 <= i < |e| ==> !IsSpace(e[i]) && (e[i] == '@' ==> i == p);
    var before, after := e[..p], e[p + 1..];
    assert e == before + [e[p]] + after;
    forall i | 0 <= i < |before| ensures before[i] != '@' {
      assert before[i] == e[i] && i != p;
    }
    NoAt(before);
    forall i | 0 <= i < |after| ensures after[i] != '@' {
      assert after[i] == e[p + 1 + i] && p + 1 + i != p;
    }
    NoAt(after);
  }

  lemma NoAt(s: string)
    requires forall i :: 0 <= i < |s| ==> s[i] != '@'
    ensures multiset(s)['@'] == 0
  {
    assert '@' !in s;
  }
}
