/** String primitives the source takes from its languages' libraries: white space and `trim`,
    `toLowerCase`, `includes`, `split` on one character and the `replace` calls used to clean values. */
module Text {

  /** The code points JavaScript treats as white space in `String.prototype.trim` and in the
      regular-expression class `\s` (ECMAScript WhiteSpace and LineTerminator). */
  predicate IsSpace(c: char) {
    var n := c as int;
    (0x09 <= n <= 0x0D) || n == 0x20 || n == 0xA0 || n == 0x1680 || (0x2000 <= n <= 0x200A)
    || n == 0x2028 || n == 0x2029 || n == 0x202F || n == 0x205F || n == 0x3000 || n == 0xFEFF
  }

  /** The code points Python's `str.strip()` and `float()` treat as white space. */
  predicate IsPySpace(c: char) {
    var n := c as int;
    (0x09 <= n <= 0x0D) || (0x1C <= n <= 0x20) || n == 0x85 || n == 0xA0 || n == 0x1680
    || (0x2000 <= n <= 0x200A) || n == 0x2028 || n == 0x2029 || n == 0x202F || n == 0x205F || n == 0x3000
  }

  /** Length of the longest prefix of `s` whose characters all satisfy `sp`. */
  function LeadingCount(s: string, sp: char -> bool): (n: nat)
    ensures n <= |s|
    ensures forall i :: 0 <= i < n ==> sp(s[i])
    ensures n == |s| || !sp(s[n])
  {
    if |s| > 0 && sp(s[0]) then 1 + LeadingCount(s[1..], sp) else 0
  }

  /** Length of the longest suffix of `s` whose characters all satisfy `sp`. */
  function TrailingCount(s: string, sp: char -> bool): (n: nat)
    ensures n <= |s|
    ensures forall i :: |s| - n <= i < |s| ==> sp(s[i])
    ensures n == |s| || !sp(s[|s| - 1 - n])
  {
    if |s| > 0 && sp(s[|s| - 1]) then 1 + TrailingCount(s[..|s| - 1], sp) else 0
  }

  /** Where the trimmed part of `s` starts. */
  function TrimStart(s: string, sp: char -> bool): nat {
    LeadingCount(s, sp)
  }

  /** Where the trimmed part of `s` ends. */
  function TrimEnd(s: string, sp: char -> bool): (e: nat)
    ensures TrimStart(s, sp) <= e <= |s|
  {
    |s| - TrailingCount(s[TrimStart(s, sp)..], sp)
  }

  /** `s` without its leading and trailing characters that satisfy `sp`. */
  function TrimWith(s: string, sp: char -> bool): (t: string)
    ensures t == s[TrimStart(s, sp)..TrimEnd(s, sp)]
  {
    var a := TrimStart(s, sp);
    var rest := s[a..];
    rest[..|rest| - TrailingCount(rest, sp)]
  }

  /** What trimming removes is white space, and what it keeps neither starts nor ends with it. */
  lemma TrimWithBounds(s: string, sp: char -> bool)
    ensures forall i :: 0 <= i < TrimStart(s, sp) ==> sp(s[i])
    ensures forall i :: TrimEnd(s, sp) <= i < |s| ==> sp(s[i])
    ensures TrimWith(s, sp) == [] || (!sp(TrimWith(s, sp)[0]) && !sp(TrimWith(s, sp)[|TrimWith(s, sp)| - 1]))
  {
    var a := TrimStart(s, sp);
    var rest := s[a..];
    assert forall i :: TrimEnd(s, sp) <= i < |s| ==> s[i] == rest[i - a];
  }

  /** JavaScript's `s.trim()`. */
  function Trim(s: string): string {
    TrimWith(s, IsSpace)
  }

  /** Python's `s.strip()`. */
  function PyStrip(s: string): string {
    TrimWith(s, IsPySpace)
  }

  /** A string is blank (its trimmed form is empty) exactly when every character is white space. */
  lemma BlankIffAllSpace(s: string, sp: char -> bool)
    ensures TrimWith(s, sp) == [] <==> forall i :: 0 <= i < |s| ==> sp(s[i])
  {
    TrimWithBounds(s, sp);
    if TrimWith(s, sp) == [] {
      assert TrimStart(s, sp) == TrimEnd(s, sp);
    } else {
      assert !sp(s[TrimStart(s, sp)]);
    }
  }

  /** Trimming a string whose first and last characters are not white space changes nothing. */
  lemma TrimNoOp(s: string, sp: char -> bool)
    requires s == [] || (!sp(s[0]) && !sp(s[|s| - 1]))
    ensures TrimWith(s, sp) == s
  {
  }

  /** Trimming twice is trimming once. */
  lemma TrimIdempotent(s: string, sp: char -> bool)
    ensures TrimWith(TrimWith(s, sp), sp) == TrimWith(s, sp)
  {
    TrimWithBounds(s, sp);
    TrimNoOp(TrimWith(s, sp), sp);
  }

  /** Every character of a trimmed string comes from the original. */
  lemma TrimChars(s: string, sp: char -> bool, c: char)
    requires c in TrimWith(s, sp)
    ensures c in s
  {
  }

  /** The capitals `toLowerCase` knows here: ASCII `A`-`Z` and the Latin-1 capitals U+00C0-U+00DE
      other than the multiplication sign U+00D7. */
  predicate IsUpper(c: char) {
    ('A' <= c <= 'Z') || ('\U{C0}' <= c <= '\U{DE}' && c != '\U{D7}')
  }

  /** One character of JavaScript's `toLowerCase`. */
  function LowerChar(c: char): char {
    if IsUpper(c) then (c as int + 32) as char else c
  }

  /** JavaScript's `s.toLowerCase()`: no capital is left, each capital becomes the small letter 32
      code points after it, and every other character stays where and what it was. */
  function ToLower(s: string): (t: string)
    ensures |t| == |s|
    ensures forall i :: 0 <= i < |t| ==> !IsUpper(t[i])
    ensures forall i :: 0 <= i < |s| && IsUpper(s[i]) ==> t[i] as int == s[i] as int + 32
    ensures forall i :: 0 <= i < |s| && !IsUpper(s[i]) ==> t[i] == s[i]
  {
    seq(|s|, i requires 0 <= i < |s| => LowerChar(s[i]))
  }

  /** Lower-casing is idempotent. */
  lemma ToLowerIdempotent(s: string)
    ensures ToLower(ToLower(s)) == ToLower(s)
  {
    var t := ToLower(s);
    assert forall i :: 0 <= i < |t| ==> ToLower(t)[i] == t[i];
  }

  /** JavaScript's `s.includes(t)` and Python's `t in s`: `t` occurs in `s` as a contiguous block. */
  function Contains(s: string, t: string): bool
    decreases |s|
  {
    if |t| <= |s| && s[..|t|] == t then true
    else if |s| == 0 then false
    else Contains(s[1..], t)
  }

  /** `Contains` is exactly "`t` is a prefix of some suffix of `s`". */
  lemma {:induction false} ContainsIff(s: string, t: string)
    ensures Contains(s, t) <==> exists i :: 0 <= i <= |s| && t <= s[i..]
    decreases |s|
  {
    if |t| <= |s| && s[..|t|] == t {
      assert t <= s[0..];
    } else if |s| == 0 {
    } else {
      ContainsIff(s[1..], t);
      if Contains(s[1..], t) {
        var i :| 0 <= i <= |s[1..]| && t <= s[1..][i..];
        assert s[1..][i..] == s[i + 1..];
      } else if exists i :: 0 <= i <= |s| && t <= s[i..] {
        var i :| 0 <= i <= |s| && t <= s[i..];
        assert i != 0;
        assert s[1..][i - 1..] == s[i..];
      }
    }
  }

  /** A string contains every one of its blocks. */
  lemma ContainsInfix(s: string, i: nat, t: string)
    requires i + |t| <= |s| && s[i..i + |t|] == t
    ensures Contains(s, t)
  {
    assert t <= s[i..];
    ContainsIff(s, t);
  }

  /** JavaScript's `s.split(sep)` and Python's `s.split(sep)` for a one-character separator. */
  function Split(s: string, sep: char): (parts: seq<string>)
    ensures |parts| >= 1
    ensures forall i :: 0 <= i < |parts| ==> sep !in parts[i]
    decreases |s|
  {
    if |s| == 0 then [""]
    else
      var rest := Split(s[1..], sep);
      if s[0] == sep then [""] + rest else [[s[0]] + rest[0]] + rest[1..]
  }

  /** The pieces joined back with the separator: `parts.join(sep)`. */
  function Join(parts: seq<string>, sep: char): string
    requires |parts| >= 1
  {
    if |parts| == 1 then parts[0] else parts[0] + [sep] + Join(parts[1..], sep)
  }

  /** Splitting loses nothing: joining the pieces gives the string back. */
  lemma {:induction false} JoinSplit(s: string, sep: char)
    ensures Join(Split(s, sep), sep) == s
    decreases |s|
  {
    if |s| > 0 {
      JoinSplit(s[1..], sep);
      var rest := Split(s[1..], sep);
      if s[0] != sep {
        if |rest| == 1 {
          assert Join([[s[0]] + rest[0]] + rest[1..], sep) == [s[0]] + rest[0];
        } else {
          assert ([[s[0]] + rest[0]] + rest[1..])[1..] == rest[1..];
        }
      } else {
        assert ([""] + rest)[1..] == rest;
      }
    }
  }

  /** Splitting a separator-free piece followed by more text yields the piece glued to the first part. */
  lemma {:induction false} SplitFreePrefix(p: string, tail: string, sep: char)
    requires sep !in p
    ensures Split(p + tail, sep) == [p + Split(tail, sep)[0]] + Split(tail, sep)[1..]
    decreases |p|
  {
    if |p| > 0 {
      assert (p + tail)[1..] == p[1..] + tail;
      SplitFreePrefix(p[1..], tail, sep);
      var rest := Split(p[1..] + tail, sep);
      assert rest[0] == p[1..] + Split(tail, sep)[0];
      assert rest[1..] == Split(tail, sep)[1..];
      assert [p[0]] + (p[1..] + Split(tail, sep)[0]) == p + Split(tail, sep)[0];
    } else {
      assert p + tail == tail;
      assert p + Split(tail, sep)[0] == Split(tail, sep)[0];
      assert [p + Split(tail, sep)[0]] + Split(tail, sep)[1..] == Split(tail, sep);
    }
  }

  /** Joining separator-free pieces and splitting again gives the pieces back. */
  lemma {:induction false} SplitJoin(parts: seq<string>, sep: char)
    requires |parts| >= 1
    requires forall i :: 0 <= i < |parts| ==> sep !in parts[i]
    ensures Split(Join(parts, sep), sep) == parts
    decreases |parts|
  {
    if |parts| == 1 {
      SplitFreePrefix(parts[0], "", sep);
      assert parts[0] + "" == parts[0];
    } else {
      var tail := [sep] + Join(parts[1..], sep);
      SplitJoin(parts[1..], sep);
      assert parts[0] + [sep] + Join(parts[1..], sep) == parts[0] + tail;
      SplitFreePrefix(parts[0], tail, sep);
      assert tail[1..] == Join(parts[1..], sep);
      assert Split(tail, sep) == [""] + parts[1..];
      assert parts[0] + "" == parts[0];
      assert [parts[0]] + parts[1..] == parts;
    }
  }

  /** `s` with every character satisfying `drop` removed (`s.replace(/[...]/g, '')`). */
  function RemoveWhere(s: string, drop: char -> bool): (t: string)
    ensures |t| <= |s|
    ensures forall c :: c in t ==> c in s && !drop(c)
  {
    if |s| == 0 then ""
    else (if drop(s[0]) then "" else [s[0]]) + RemoveWhere(s[1..], drop)
  }

  /** `s` with every occurrence of character `c` removed. */
  function RemoveChar(s: string, c: char): (t: string)
    ensures c !in t
    ensures forall d :: d in t ==> d in s
  {
    if |s| == 0 then ""
    else (if s[0] == c then "" else [s[0]]) + RemoveChar(s[1..], c)
  }

  /** `s` with every occurrence of character `a` replaced by `b`. */
  function ReplaceChar(s: string, a: char, b: char): (t: string)
    ensures |t| == |s|
    ensures a != b ==> a !in t
    ensures forall i :: 0 <= i < |s| ==> (t[i] == b <==> s[i] == a || s[i] == b)
    ensures forall i :: 0 <= i < |s| && s[i] != a ==> t[i] == s[i]
  {
    seq(|s|, i requires 0 <= i < |s| => if s[i] == a then b else s[i])
  }

  /** `s` with every occurrence of the two-character block `ab` removed, scanning left to right
      without overlap, as a global `replace` does. */
  function RemovePair(s: string, a: char, b: char): (t: string)
    ensures |t| <= |s|
    ensures forall c :: c in t ==> c in s
    decreases |s|
  {
    if |s| >= 2 && s[0] == a && s[1] == b then RemovePair(s[2..], a, b)
    else if |s| == 0 then ""
    else [s[0]] + RemovePair(s[1..], a, b)
  }

  /** A string without the first character of the pair is left untouched by `RemovePair`. */
  lemma {:induction false} RemovePairNoOp(s: string, a: char, b: char)
    requires a !in s
    ensures RemovePair(s, a, b) == s
    decreases |s|
  {
    if |s| > 0 {
      RemovePairNoOp(s[1..], a, b);
    }
  }

  /** `RemoveWhere` leaves a string alone when nothing in it is to be dropped. */
  lemma {:induction false} RemoveWhereNoOp(s: string, drop: char -> bool)
    requires forall i :: 0 <= i < |s| ==> !drop(s[i])
    ensures RemoveWhere(s, drop) == s
    decreases |s|
  {
    if |s| > 0 {
      RemoveWhereNoOp(s[1..], drop);
    }
  }

  /** `RemoveChar` leaves a string alone when the character does not occur. */
  lemma {:induction false} RemoveCharNoOp(s: string, c: char)
    requires c !in s
    ensures RemoveChar(s, c) == s
    decreases |s|
  {
    if |s| > 0 {
      RemoveCharNoOp(s[1..], c);
    }
  }

  /** Removal distributes over concatenation. */
  lemma {:induction false} RemoveWhereAppend(s: string, u: string, drop: char -> bool)
    ensures RemoveWhere(s + u, drop) == RemoveWhere(s, drop) + RemoveWhere(u, drop)
    decreases |s|
  {
    if |s| == 0 {
      assert s + u == u;
    } else {
      assert (s + u)[1..] == s[1..] + u;
      RemoveWhereAppend(s[1..], u, drop);
    }
  }

  /** Removal of one character distributes over concatenation. */
  lemma {:induction false} RemoveCharAppend(s: string, u: string, c: char)
    ensures RemoveChar(s + u, c) == RemoveChar(s, c) + RemoveChar(u, c)
    decreases |s|
  {
    if |s| == 0 {
      assert s + u == u;
    } else {
      var w := s + u;
      var h := if s[0] == c then "" else [s[0]];
      assert w[0] == s[0] && w[1..] == s[1..] + u;
      assert RemoveChar(w, c) == h + RemoveChar(w[1..], c);
      assert RemoveChar(s, c) == h + RemoveChar(s[1..], c);
      RemoveCharAppend(s[1..], u, c);
    }
  }

  /** `RemovePair` passes over a prefix that holds no first character of the pair. */
  lemma {:induction false} RemovePairPrefix(p: string, t: string, a: char, b: char)
    requires a !in p
    ensures RemovePair(p + t, a, b) == p + RemovePair(t, a, b)
    decreases |p|
  {
    if |p| == 0 {
      assert p + t == t;
    } else {
      var s := p + t;
      assert s[0] == p[0] && p[0] != a;
      assert s[1..] == p[1..] + t;
      assert RemovePair(s, a, b) == [p[0]] + RemovePair(s[1..], a, b);
      RemovePairPrefix(p[1..], t, a, b);
    }
  }

  /** `RemovePair` leaves alone a suffix that holds neither character of the pair. */
  lemma {:induction false} RemovePairSuffix(t: string, q: string, a: char, b: char)
    requires a !in q && b !in q
    ensures RemovePair(t + q, a, b) == RemovePair(t, a, b) + q
    decreases |t|
  {
    if |t| == 0 {
      assert t + q == q;
      RemovePairNoOp(q, a, b);
    } else if |t| >= 2 && t[0] == a && t[1] == b {
      assert (t + q)[2..] == t[2..] + q;
      RemovePairSuffix(t[2..], q, a, b);
    } else {
      assert (t + q)[1..] == t[1..] + q;
      if |t| == 1 && |q| > 0 {
        assert (t + q)[1] == q[0];
      }
      RemovePairSuffix(t[1..], q, a, b);
    }
  }

  /** `RemoveWhere` empties a string whose every character is to be dropped. */
  lemma {:induction false} RemoveWhereAll(s: string, drop: char -> bool)
    requires forall i :: 0 <= i < |s| ==> drop(s[i])
    ensures RemoveWhere(s, drop) == ""
    decreases |s|
  {
    if |s| > 0 {
      RemoveWhereAll(s[1..], drop);
    }
  }
}
