/** Facts about the parsers of the `Amounts` module: canonical pt-BR currency strings read back to
    their value through every parser, and where the Python script's parser and the dashboard's agree. */
module AmountFacts {
  import opened Common
  import opened Text
  import opened Amounts

  // ----- Canonical pt-BR currency strings: every parser reads them back -----

  function DigitChar(d: nat): (c: char)
    requires d < 10
    ensures IsDigit(c) && DigitValue(c) == d
  {
    ('0' as int + d) as char
  }

  /** The decimal numeral of `n`, without leading zeros. */
  function Digits(n: nat): (s: string)
    ensures |s| >= 1
    ensures forall i :: 0 <= i < |s| ==> IsDigit(s[i])
  {
    if n < 10 then [DigitChar(n)] else Digits(n / 10) + [DigitChar(n % 10)]
  }

  function Pad2(n: nat): (s: string)
    requires n < 100
    ensures |s| == 2 && IsDigit(s[0]) && IsDigit(s[1])
  {
    [DigitChar(n / 10), DigitChar(n % 10)]
  }

  function Pad3(n: nat): (s: string)
    requires n < 1000
    ensures |s| == 3 && forall i :: 0 <= i < 3 ==> IsDigit(s[i])
  {
    [DigitChar(n / 100), DigitChar(n / 10 % 10), DigitChar(n % 10)]
  }

  /** The numeral of `n` with `.` between groups of three digits, as pt-BR writes it. */
  function Grouped(n: nat): (s: string)
    ensures |s| >= 1
    ensures forall i :: 0 <= i < |s| ==> IsDigit(s[i]) || s[i] == '.'
  {
    if n < 1000 then Digits(n) else Grouped(n / 1000) + "." + Pad3(n % 1000)
  }

  /** A whole number of centavos written as pt-BR currency, `R$ 1.234,56`. */
  function FormatBrl(cents: nat): string {
    "R$ " + Grouped(cents / 100) + "," + Pad2(cents % 100)
  }

  /** The characters of a written amount: digits, thousands dots and the decimal comma or point. */
  predicate IsNumeralChar(c: char) {
    IsDigit(c) || c == '.' || c == ','
  }

  predicate IsNumeral(s: string) {
    forall i :: 0 <= i < |s| ==> IsNumeralChar(s[i])
  }

  /** No character of a numeral is white space, `R`, `;` or `_`. */
  lemma NumeralChars(s: string)
    requires IsNumeral(s)
    ensures forall i :: 0 <= i < |s| ==> !IsSpace(s[i]) && !IsPySpace(s[i])
    ensures 'R' !in s && ' ' !in s && ';' !in s && '_' !in s
  {
  }

  /** Python's `strip` leaves a numeral alone. */
  lemma StripNumeral(s: string)
    requires IsNumeral(s)
    ensures PyStrip(s) == s
  {
    NumeralChars(s);
    TrimNoOp(s, IsPySpace);
  }

  lemma {:induction false} HornerSnoc(acc: nat, d: string, c: char, base: nat)
    ensures Horner(acc, d + [c], base) == Horner(acc, d, base) * base + DigitValue(c)
    decreases |d|
  {
    if |d| == 0 {
      assert d + [c] == [c];
      assert [c][1..] == [];
    } else {
      assert (d + [c])[1..] == d[1..] + [c];
      HornerSnoc(acc * base + DigitValue(d[0]), d[1..], c, base);
    }
  }

  /** Reading a numeral gives back its number. */
  lemma {:induction false} HornerDigits(n: nat)
    ensures Horner(0, Digits(n), 10) == n
  {
    if n < 10 {
      assert Digits(n)[1..] == [];
    } else {
      HornerSnoc(0, Digits(n / 10), DigitChar(n % 10), 10);
      HornerDigits(n / 10);
    }
  }

  lemma HornerPad2(f: nat)
    requires f < 100
    ensures Horner(0, Pad2(f), 10) == f
  {
    var p := Pad2(f);
    assert DigitValue(p[0]) == f / 10 && DigitValue(p[1]) == f % 10;
    assert p[1..] == [p[1]];
    assert Horner(0, p, 10) == Horner(f / 10, [p[1]], 10);
    assert [p[1]][1..] == [];
    assert Horner(f / 10, [p[1]], 10) == Horner(f / 10 * 10 + f % 10, [], 10);
  }

  /** A run of digits from index `i` to `j`, ended by a non-digit or the end of the string, is read
      whole, to the number it spells. */
  lemma {:induction false} DigitsFromRun(s: string, i: nat, j: nat, acc: nat, base: nat)
    requires i <= j <= |s|
    requires forall k :: i <= k < j ==> IsDigitIn(s[k], base)
    requires j == |s| || !IsDigitIn(s[j], base)
    ensures DigitsFrom(s, i, acc, base) == (j, Horner(acc, s[i..j], base))
    decreases j - i
  {
    if i < j {
      assert s[i..j][0] == s[i];
      assert s[i..j][1..] == s[i + 1..j];
      DigitsFromRun(s, i + 1, j, acc * base + DigitValue(s[i]), base);
    }
  }

  /** The numeral of a number of four or more digits ends in its last three digits. */
  lemma DigitsLastThree(n: nat)
    requires n >= 1000
    ensures Digits(n) == Digits(n / 1000) + Pad3(n % 1000)
  {
    var a, b, c, r := n / 10, n / 100, n / 1000, n % 1000;
    DecimalPlaces(n);
    assert Digits(n) == Digits(a) + [DigitChar(n % 10)];
    assert Digits(a) == Digits(b) + [DigitChar(a % 10)];
    assert Digits(b) == Digits(c) + [DigitChar(b % 10)];
    assert Pad3(r) == [DigitChar(b % 10), DigitChar(a % 10), DigitChar(n % 10)];
  }

  /** The tens, hundreds and thousands of `n`, and the digits of its last three places. */
  lemma DecimalPlaces(n: nat)
    ensures n / 10 / 10 == n / 100 && n / 100 / 10 == n / 1000
    ensures n % 1000 / 100 == n / 100 % 10 && n % 1000 / 10 % 10 == n / 10 % 10 && n % 1000 % 10 == n % 10
  {
    var q, r := n / 1000, n % 1000;
    assert n == 1000 * q + r;
    var h, t, u := r / 100, r / 10 % 10, r % 10;
    assert r == 100 * h + 10 * t + u;
    assert n == 10 * (100 * q + 10 * h + t) + u;
    assert n / 10 == 100 * q + 10 * h + t;
    assert n == 100 * (10 * q + h) + (10 * t + u);
    assert n / 100 == 10 * q + h;
  }

  /** Deleting the thousands dots of a grouped numeral gives the plain numeral. */
  lemma {:induction false} UngroupedDigits(n: nat)
    ensures RemoveChar(Grouped(n), '.') == Digits(n)
  {
    if n < 1000 {
      RemoveCharNoOp(Digits(n), '.');
    } else {
      var g := Grouped(n / 1000);
      var p := Pad3(n % 1000);
      RemoveCharAppend(g + ".", p, '.');
      RemoveCharAppend(g, ".", '.');
      UngroupedDigits(n / 1000);
      RemoveCharNoOp(p, '.');
      DigitsLastThree(n);
    }
  }

  /** An unsigned literal with a point and fraction digits at index `i`, read from its parts. */
  lemma ScanPointParts(t: string, i: nat, ie: nat, iv: nat, fe: nat, fv: nat)
    requires i < |t| && t[i] != '+' && t[i] != '-'
    requires DigitsFrom(t, i, 0, 10) == (ie, iv)
    requires ie < |t| && t[ie] == '.'
    requires DigitsFrom(t, ie + 1, 0, 10) == (fe, fv) && ie > i
    requires ExponentAt(t, fe) == (fe, 0)
    ensures ScanAt(t, i) == Some(Scan(iv as real + Shift(fv as real, -(fe - ie - 1)), fe))
  {
  }

  lemma ScanPointAt(t: string, a: nat, b: nat)
    requires 1 <= a < b <= |t| && t[a] == '.'
    requires forall k :: 0 <= k < a ==> IsDigit(t[k])
    requires forall k :: a < k < b ==> IsDigit(t[k])
    requires b == |t| || (!IsDigit(t[b]) && t[b] != 'e' && t[b] != 'E')
    ensures ScanAt(t, 0)
         == Some(Scan(Horner(0, t[..a], 10) as real + Shift(Horner(0, t[a + 1..b], 10) as real, -(b - a - 1)), b))
  {
    assert DigitsFrom(t, 0, 0, 10) == (a, Horner(0, t[..a], 10)) by {
      DigitsFromRun(t, 0, a, 0, 10);
      assert t[0..a] == t[..a];
    }
    assert DigitsFrom(t, a + 1, 0, 10) == (b, Horner(0, t[a + 1..b], 10)) by {
      DigitsFromRun(t, a + 1, b, 0, 10);
    }
    assert ExponentAt(t, b) == (b, 0);
    assert IsDigit(t[0]);
    ScanPointParts(t, 0, a, Horner(0, t[..a], 10), b, Horner(0, t[a + 1..b], 10));
  }

  /** The cleaned, written amount is read whole, to the amount in reais. */
  lemma ScanCleanedAmount(c: nat)
    ensures ScanAt(Digits(c / 100) + "." + Pad2(c % 100), 0)
         == Some(Scan(c as real / 100.0, |Digits(c / 100)| + 3))
  {
    var d := Digits(c / 100);
    var t := d + "." + Pad2(c % 100);
    assert t[..|d|] == d;
    assert t[|d| + 1..|d| + 3] == Pad2(c % 100);
    ScanPointAt(t, |d|, |d| + 3);
    HornerDigits(c / 100);
    HornerPad2(c % 100);
    assert Shift((c % 100) as real, -2) == (c % 100) as real / 100.0;
    assert (c / 100) as real + (c % 100) as real / 100.0 == c as real / 100.0;
  }

  /** `parseFloat` reads what a scan from the first character reads, when that is not white space. */
  lemma JsReadsScan(t: string, sc: Scan)
    requires |t| > 0 && !IsSpace(t[0])
    requires ScanAt(t, 0) == Some(sc)
    ensures JsParseFloat(t) == Some(sc.value)
  {
    NoLeadingSpace(t);
  }

  lemma NoLeadingSpace(t: string)
    requires |t| > 0 && !IsSpace(t[0])
    ensures JsParseFloat(t) == match ScanAt(t, 0) case None => None case Some(sc) => Some(sc.value)
  {
  }

  /** JavaScript reads the cleaned, written amount to its value. */
  lemma JsParseCleaned(c: nat)
    ensures JsParseFloat(Digits(c / 100) + "." + Pad2(c % 100)) == Some(c as real / 100.0)
  {
    var t := Digits(c / 100) + "." + Pad2(c % 100);
    assert t[0] == Digits(c / 100)[0];
    NoLeadingSpace(t);
    ScanCleanedAmount(c);
  }

  /** Python's `strip` leaves the cleaned, written amount alone. */
  lemma StripCleanedAmount(c: nat)
    ensures PyStrip(Digits(c / 100) + "." + Pad2(c % 100)) == Digits(c / 100) + "." + Pad2(c % 100)
  {
    var t := Digits(c / 100) + "." + Pad2(c % 100);
    assert IsNumeral(t);
    StripNumeral(t);
  }

  /** Python's `float` accepts a stripped string that scans whole, with the value scanned. */
  lemma PyFloatWhole(t: string, v: real)
    requires PyStrip(t) == t && '_' !in t
    requires ScanAt(t, 0) == Some(Scan(v, |t|))
    ensures PyFloat(t) == Some(v)
  {
    NoUnderscores(t);
  }

  /** Python's `float` rejects a stripped string whose literal ends before the string does. */
  lemma PyFloatPartial(t: string, sc: Scan)
    requires PyStrip(t) == t && '_' !in t
    requires ScanAt(t, 0) == Some(sc) && sc.end != |t|
    ensures PyFloat(t) == None
  {
    NoUnderscores(t);
  }

  /** A string without `_` has nothing for Python to ungroup. */
  lemma NoUnderscores(t: string)
    requires '_' !in t
    ensures UnderscoresBetweenDigits(t) && RemoveChar(t, '_') == t
  {
    RemoveCharNoOp(t, '_');
  }

  /** Python's `float` accepts a numeral that scans whole, with the value scanned. */
  lemma PyReadsNumeral(t: string, v: real)
    requires IsNumeral(t)
    requires ScanAt(t, 0) == Some(Scan(v, |t|))
    ensures PyFloat(t) == Some(v)
  {
    StripNumeral(t);
    NumeralChars(t);
    PyFloatWhole(t, v);
  }

  lemma CleanedNumeral(d: string, p: string)
    requires forall i :: 0 <= i < |d| ==> IsDigit(d[i])
    requires forall i :: 0 <= i < |p| ==> IsDigit(p[i])
    ensures IsNumeral(d + "." + p)
  {
  }

  /** Python's `float` accepts the cleaned, written amount whole, with its value. */
  lemma PyParseCleaned(c: nat)
    ensures PyFloat(Digits(c / 100) + "." + Pad2(c % 100)) == Some(c as real / 100.0)
  {
    var t := Digits(c / 100) + "." + Pad2(c % 100);
    ScanCleanedAmount(c);
    CleanedNumeral(Digits(c / 100), Pad2(c % 100));
    PyReadsNumeral(t, c as real / 100.0);
  }

  /** `R$` at the front is dropped and nothing after it is touched. */
  lemma StripCurrencySign(rest: string)
    requires 'R' !in rest
    ensures RemovePair("R$ " + rest, 'R', '$') == " " + rest
  {
    var s := "R$ " + rest;
    assert s[2..] == " " + rest;
    assert (" " + rest)[1..] == rest;
    RemovePairNoOp(rest, 'R', '$');
  }

  /** The white space left behind by `R$` is removed by either clean-up. */
  lemma DropLeadingSpace(rest: string)
    requires IsNumeral(rest)
    ensures RemoveWhere(" " + rest, IsSpace) == rest
    ensures RemoveChar(" " + rest, ' ') == rest
  {
    NumeralChars(rest);
    assert (" " + rest)[1..] == rest;
    RemoveWhereNoOp(rest, IsSpace);
    RemoveCharNoOp(rest, ' ');
  }

  /** `1.234,56` becomes `1234.56` once the dots are removed and the comma replaced. */
  lemma CleanGroupedAmount(u: nat, f: nat)
    requires f < 100
    ensures ReplaceChar(RemoveChar(Grouped(u) + "," + Pad2(f), '.'), ',', '.') == Digits(u) + "." + Pad2(f)
  {
    var g := Grouped(u);
    var p := Pad2(f);
    assert g + "," + p == g + ("," + p);
    RemoveCharAppend(g, "," + p, '.');
    UngroupedDigits(u);
    assert '.' !in "," + p;
    RemoveCharNoOp("," + p, '.');
    ReplaceDecimalComma(Digits(u), p);
  }

  /** The decimal comma after a numeral becomes a point. */
  lemma ReplaceDecimalComma(d: string, p: string)
    requires forall i :: 0 <= i < |d| ==> IsDigit(d[i])
    requires forall i :: 0 <= i < |p| ==> IsDigit(p[i])
    ensures ReplaceChar(d + "," + p, ',', '.') == d + "." + p
  {
    var t := d + "," + p;
    var want := d + "." + p;
    assert forall i :: 0 <= i < |t| ==> ReplaceChar(t, ',', '.')[i] == want[i];
  }

  /** The two clean-ups that reach a parser turn `R$ 1.234,56` into `1234.56`. */
  lemma CleanFormatted(c: nat)
    ensures LocaleClean(FormatBrl(c)) == Digits(c / 100) + "." + Pad2(c % 100)
    ensures PyClean(FormatBrl(c)) == Digits(c / 100) + "." + Pad2(c % 100)
  {
    var g := Grouped(c / 100);
    var p := Pad2(c % 100);
    var rest := g + "," + p;
    assert IsNumeral(rest);
    NumeralChars(rest);
    assert FormatBrl(c) == "R$ " + rest;
    StripCurrencySign(rest);
    DropLeadingSpace(rest);
    CleanGroupedAmount(c / 100, c % 100);
  }

  /** A written amount is not blank to JavaScript's `trim`. */
  lemma FormattedNotBlank(c: nat)
    ensures Trim(FormatBrl(c)) != ""
  {
    var s := FormatBrl(c);
    assert s[0] == 'R';
    BlankIffAllSpace(s, IsSpace);
  }

  /** A written amount is not blank to Python's `strip`. */
  lemma FormattedNotPyBlank(c: nat)
    ensures PyStrip(FormatBrl(c)) != ""
  {
    var s := FormatBrl(c);
    assert s[0] == 'R';
    BlankIffAllSpace(s, IsPySpace);
  }

  /** A written amount is not a multi-value cell. */
  lemma FormattedSingleValue(c: nat)
    ensures ';' !in FormatBrl(c)
  {
    var rest := Grouped(c / 100) + "," + Pad2(c % 100);
    assert IsNumeral(rest);
    NumeralChars(rest);
    assert FormatBrl(c) == "R$ " + rest;
  }

  /** A currency string written by `FormatBrl` reads back to its value through the dashboard's
      parse, `extractValue`, `toNumericOrNull` and the Python script's `parse_float_value`. */
  lemma FormattedAmountRoundTrip(c: nat)
    ensures JsAmount(FormatBrl(c)) == c as real / 100.0
    ensures ExtractValue(FormatBrl(c)) == c as real / 100.0
    ensures ToNumericOrNull(FormatBrl(c)) == Some(c as real / 100.0)
    ensures ParseFloatValue(FormatBrl(c)) == c as real / 100.0
  {
    CleanFormatted(c);
    JsParseCleaned(c);
    PyParseCleaned(c);
    FormattedNotBlank(c);
    FormattedNotPyBlank(c);
    FormattedSingleValue(c);
  }

  lemma GroupedExample()
    ensures Grouped(1234) == "1.234"
  {
    assert Digits(1) == "1";
    assert Pad3(234) == "234";
  }

  /** For example, 123456 centavos are written `R$ 1.234,56`. */
  lemma FormatExample()
    ensures FormatBrl(123456) == "R$ 1.234,56"
  {
    GroupedExample();
    assert Pad2(56) == "56";
  }

  /** `parseInt` reads a plain numeral back. */
  lemma ParseIntDigits(n: nat)
    ensures JsParseInt(Digits(n)) == Some(n)
  {
    var d := Digits(n);
    assert !IsSpace(d[0]) && d[0] != '+' && d[0] != '-';
    assert LeadingCount(d, IsSpace) == 0;
    assert !(1 < |d| && d[0] == '0' && (d[1] == 'x' || d[1] == 'X')) by {
      assert |d| > 1 ==> IsDigit(d[1]);
    }
    assert DigitsFrom(d, 0, 0, 10) == (|d|, Horner(0, d, 10)) by {
      DigitsFromRun(d, 0, |d|, 0, 10);
      assert d[0..|d|] == d;
    }
    HornerDigits(n);
  }

  // ----- The Python script and the dashboard on the same cell -----

  /** Every white-space character of `s`, by either language's definition, is the ASCII space. */
  predicate OnlyAsciiSpaces(s: string) {
    forall i :: 0 <= i < |s| ==> (IsSpace(s[i]) || IsPySpace(s[i])) ==> s[i] == ' '
  }

  lemma {:induction false} RemoveSpacesAscii(s: string)
    requires forall i :: 0 <= i < |s| ==> IsSpace(s[i]) ==> s[i] == ' '
    ensures RemoveWhere(s, IsSpace) == RemoveChar(s, ' ')
  {
    if |s| > 0 {
      RemoveSpacesAscii(s[1..]);
    }
  }

  /** On such a cell both clean-ups agree and leave no white space at all. */
  lemma CleanAsciiSpaced(s: string)
    requires OnlyAsciiSpaces(s)
    ensures LocaleClean(s) == PyClean(s)
    ensures forall i :: 0 <= i < |PyClean(s)| ==> !IsPySpace(PyClean(s)[i]) && !IsSpace(PyClean(s)[i])
  {
    var rp := RemovePair(s, 'R', '$');
    forall i | 0 <= i < |rp| ensures IsSpace(rp[i]) ==> rp[i] == ' ' {
      assert rp[i] in s;
    }
    RemoveSpacesAscii(rp);
    var t := PyClean(s);
    var r1 := RemoveChar(rp, ' ');
    var r2 := RemoveChar(r1, '.');
    forall i | 0 <= i < |t| ensures !IsPySpace(t[i]) && !IsSpace(t[i]) {
      if t[i] != '.' {
        assert t[i] == r2[i];
        assert r2[i] in r1 && r2[i] in rp && r2[i] in s && r2[i] != ' ';
      }
    }
  }

  /** On such a cell the two blank tests agree. */
  lemma BlankAsciiSpaced(s: string)
    requires OnlyAsciiSpaces(s)
    ensures Trim(s) == "" <==> PyStrip(s) == ""
  {
    BlankIffAllSpace(s, IsPySpace);
    BlankIffAllSpace(s, IsSpace);
  }

  /** Over a string without white space, whatever Python's `float` reads JavaScript's `parseFloat`
      reads too: `float` needs the whole string to be the literal that `parseFloat` reads a prefix of. */
  lemma JsReadsWhatPythonReads(t: string)
    requires forall i :: 0 <= i < |t| ==> !IsSpace(t[i]) && !IsPySpace(t[i])
    requires '_' !in t
    requires PyFloat(t).Some?
    ensures JsParseFloat(t) == PyFloat(t)
  {
    TrimNoOp(t, IsPySpace);
    NoLeadingSpace(t);
    NoUnderscores(t);
  }

  /** When a cell holds no white space but the ASCII space, a non-zero reading by the Python
      script's `parse_float_value` is also what the dashboard's `extractValue` reads. */
  lemma PythonAgreesWithDashboard(s: string)
    requires OnlyAsciiSpaces(s)
    requires '_' !in s
    requires ParseFloatValue(s) != 0.0
    ensures ExtractValue(s) == ParseFloatValue(s)
  {
    CleanAsciiSpaced(s);
    BlankAsciiSpaced(s);
    assert '_' !in PyClean(s) by {
      PyCleanKeeps(s, '_');
    }
    JsReadsWhatPythonReads(PyClean(s));
  }

  /** The Python clean-up brings in no character but the point. */
  lemma PyCleanKeeps(s: string, c: char)
    requires c != '.' && c !in s
    ensures c !in PyClean(s)
  {
    assert c !in RemoveChar(RemoveChar(RemovePair(s, 'R', '$'), ' '), '.');
  }

  // ----- Digit grouping: where the two readers part -----

  /** The cell `d_efg`: four digits grouped as Python allows, as in `1_000`. */
  function Underscored(d: char, e: char, f: char, g: char): string {
    [d, '_', e, f, g]
  }

  /** The number the four digits spell. */
  function FourDigits(d: char, e: char, f: char, g: char): nat {
    1000 * DigitValue(d) + 100 * DigitValue(e) + 10 * DigitValue(f) + DigitValue(g)
  }

  /** On a grouped cell such as `1_000` Python's `float` reads the whole number (1000), while
      `parseFloat` stops at the underscore and reads the leading digit (1): the script and the
      dashboard disagree on every such cell whose leading digit is not zero. */
  lemma UnderscoreSplitsReaders(d: char, e: char, f: char, g: char)
    requires IsDigit(d) && IsDigit(e) && IsDigit(f) && IsDigit(g)
    ensures ParseFloatValue(Underscored(d, e, f, g)) == FourDigits(d, e, f, g) as real
    ensures ExtractValue(Underscored(d, e, f, g)) == DigitValue(d) as real
    ensures DigitValue(d) != 0 ==> ParseFloatValue(Underscored(d, e, f, g)) != ExtractValue(Underscored(d, e, f, g))
  {
    PythonReadsUnderscored(d, e, f, g);
    DashboardReadsUnderscored(d, e, f, g);
    if DigitValue(d) != 0 {
      var n, m := FourDigits(d, e, f, g), DigitValue(d);
      assert n > m;
      assert n as real > m as real;
    }
  }

  lemma PythonReadsUnderscored(d: char, e: char, f: char, g: char)
    requires IsDigit(d) && IsDigit(e) && IsDigit(f) && IsDigit(g)
    ensures ParseFloatValue(Underscored(d, e, f, g)) == FourDigits(d, e, f, g) as real
  {
    var s := Underscored(d, e, f, g);
    UnderscoredGrouped(d, e, f, g);
    GroupedDigitsClean(s);
    PyReadsGrouped(d, e, f, g);
  }

  lemma DashboardReadsUnderscored(d: char, e: char, f: char, g: char)
    requires IsDigit(d) && IsDigit(e) && IsDigit(f) && IsDigit(g)
    ensures ExtractValue(Underscored(d, e, f, g)) == DigitValue(d) as real
  {
    var s := Underscored(d, e, f, g);
    UnderscoredGrouped(d, e, f, g);
    GroupedDigitsClean(s);
    JsReadsLeading(d, e, f, g);
  }

  /** The characters of a grouped numeral such as `1_000`. */
  predicate IsGrouped(s: string) {
    forall i :: 0 <= i < |s| ==> IsDigit(s[i]) || s[i] == '_'
  }

  lemma UnderscoredGrouped(d: char, e: char, f: char, g: char)
    requires IsDigit(d) && IsDigit(e) && IsDigit(f) && IsDigit(g)
    ensures |Underscored(d, e, f, g)| > 0 && IsGrouped(Underscored(d, e, f, g))
  {
  }

  /** A cell of digits and underscores is left alone by both clean-ups and by both strips. */
  lemma GroupedDigitsClean(s: string)
    requires |s| > 0 && IsGrouped(s)
    ensures PyStrip(s) == s && Trim(s) == s && ';' !in s
    ensures PyClean(s) == s && LocaleClean(s) == s
  {
    assert PyStrip(s) == s && Trim(s) == s by {
      TrimNoOp(s, IsPySpace);
      TrimNoOp(s, IsSpace);
    }
    GroupedPyClean(s);
    GroupedLocaleClean(s);
  }

  lemma GroupedPyClean(s: string)
    requires IsGrouped(s)
    ensures PyClean(s) == s
  {
    RemovePairNoOp(s, 'R', '$');
    RemoveCharNoOp(s, ' ');
    RemoveCharNoOp(s, '.');
    assert ReplaceChar(s, ',', '.') == s;
  }

  lemma GroupedLocaleClean(s: string)
    requires IsGrouped(s)
    ensures LocaleClean(s) == s
  {
    RemovePairNoOp(s, 'R', '$');
    RemoveWhereNoOp(s, IsSpace);
    RemoveCharNoOp(s, '.');
    assert ReplaceChar(s, ',', '.') == s;
  }

  lemma PyReadsGrouped(d: char, e: char, f: char, g: char)
    requires IsDigit(d) && IsDigit(e) && IsDigit(f) && IsDigit(g)
    ensures PyFloat(Underscored(d, e, f, g)) == Some(FourDigits(d, e, f, g) as real)
  {
    var s := Underscored(d, e, f, g);
    assert PyStrip(s) == s by {
      TrimNoOp(s, IsPySpace);
    }
    assert UnderscoresBetweenDigits(s);
    Ungroup(d, e, f, g);
    ScanFour(d, e, f, g);
  }

  lemma Ungroup(d: char, e: char, f: char, g: char)
    requires IsDigit(d) && IsDigit(e) && IsDigit(f) && IsDigit(g)
    ensures RemoveChar(Underscored(d, e, f, g), '_') == [d, e, f, g]
  {
    assert Underscored(d, e, f, g) == [d] + ['_'] + [e, f, g];
    RemoveCharAppend([d] + ['_'], [e, f, g], '_');
    RemoveCharAppend([d], ['_'], '_');
    RemoveCharNoOp([d], '_');
    RemoveCharNoOp([e, f, g], '_');
  }

  lemma ScanFour(d: char, e: char, f: char, g: char)
    requires IsDigit(d) && IsDigit(e) && IsDigit(f) && IsDigit(g)
    ensures ScanAt([d, e, f, g], 0) == Some(Scan(FourDigits(d, e, f, g) as real, 4))
  {
    var u := [d, e, f, g];
    DigitsFromRun(u, 0, 4, 0, 10);
    assert u[0..4] == u;
    assert Horner(0, u, 10) == FourDigits(d, e, f, g) by {
      var a, b, c := DigitValue(d), DigitValue(e), DigitValue(f);
      assert u[1..] == [e, f, g] && [e, f, g][1..] == [f, g] && [f, g][1..] == [g] && [g][1..] == [];
      assert Horner(0, u, 10) == Horner(a, [e, f, g], 10);
      assert Horner(a, [e, f, g], 10) == Horner(a * 10 + b, [f, g], 10);
      assert Horner(a * 10 + b, [f, g], 10) == Horner((a * 10 + b) * 10 + c, [g], 10);
      assert Horner((a * 10 + b) * 10 + c, [g], 10) == ((a * 10 + b) * 10 + c) * 10 + DigitValue(g);
    }
  }

  lemma JsReadsLeading(d: char, e: char, f: char, g: char)
    requires IsDigit(d) && IsDigit(e) && IsDigit(f) && IsDigit(g)
    ensures JsParseFloat(Underscored(d, e, f, g)) == Some(DigitValue(d) as real)
  {
    var s := Underscored(d, e, f, g);
    DigitsFromRun(s, 0, 1, 0, 10);
    assert s[0..1] == [d] && [d][1..] == [];
    NoLeadingSpace(s);
  }

  /** The cell `a,b,c` of three digits with two decimal commas. */
  function TwoCommas(a: char, b: char, c: char): string {
    [a, ',', b, ',', c]
  }

  /** The string `a.b.c` that both clean-ups make of it. */
  function TwoPoints(a: char, b: char, c: char): string {
    [a, '.', b, '.', c]
  }

  lemma TwoCommasNumeral(a: char, b: char, c: char)
    requires IsDigit(a) && IsDigit(b) && IsDigit(c)
    ensures IsNumeral(TwoCommas(a, b, c)) && IsNumeral(TwoPoints(a, b, c))
  {
    var s := TwoCommas(a, b, c);
    var t := TwoPoints(a, b, c);
    assert forall i :: 0 <= i < 5 ==> s[i] == a || s[i] == b || s[i] == c || s[i] == ',';
    assert forall i :: 0 <= i < 5 ==> t[i] == a || t[i] == b || t[i] == c || t[i] == '.';
  }

  lemma TwoCommasReplace(a: char, b: char, c: char)
    requires IsDigit(a) && IsDigit(b) && IsDigit(c)
    ensures ReplaceChar(TwoCommas(a, b, c), ',', '.') == TwoPoints(a, b, c)
  {
    var s := TwoCommas(a, b, c);
    var t := TwoPoints(a, b, c);
    assert forall i :: 0 <= i < 5 ==> ReplaceChar(s, ',', '.')[i] == t[i];
  }

  /** The dashboard's clean-up leaves `a,b,c` alone but for the commas, which become points. */
  lemma LocaleCleanTwoCommas(a: char, b: char, c: char)
    requires IsDigit(a) && IsDigit(b) && IsDigit(c)
    ensures LocaleClean(TwoCommas(a, b, c)) == TwoPoints(a, b, c)
  {
    var s := TwoCommas(a, b, c);
    TwoCommasNumeral(a, b, c);
    NumeralChars(s);
    RemovePairNoOp(s, 'R', '$');
    RemoveWhereNoOp(s, IsSpace);
    RemoveCharNoOp(s, '.');
    TwoCommasReplace(a, b, c);
  }

  /** So does the Python script's. */
  lemma PyCleanTwoCommas(a: char, b: char, c: char)
    requires IsDigit(a) && IsDigit(b) && IsDigit(c)
    ensures PyClean(TwoCommas(a, b, c)) == TwoPoints(a, b, c)
  {
    var s := TwoCommas(a, b, c);
    TwoCommasNumeral(a, b, c);
    NumeralChars(s);
    RemovePairNoOp(s, 'R', '$');
    RemoveCharNoOp(s, ' ');
    RemoveCharNoOp(s, '.');
    TwoCommasReplace(a, b, c);
  }

  /** `a.b.c` is read up to its second point, as `a.b`. */
  lemma ScanTwoPoints(a: char, b: char, c: char)
    requires IsDigit(a) && IsDigit(b) && IsDigit(c)
    ensures ScanAt(TwoPoints(a, b, c), 0)
         == Some(Scan(DigitValue(a) as real + DigitValue(b) as real / 10.0, 3))
  {
    var t := TwoPoints(a, b, c);
    ScanPointAt(t, 1, 3);
    assert t[..1] == [a] && t[2..3] == [b];
    assert [a][1..] == [] && [b][1..] == [];
    assert Horner(0, [a], 10) == DigitValue(a);
    assert Horner(0, [b], 10) == DigitValue(b);
  }

  lemma TwoCommasNotBlank(a: char, b: char, c: char)
    requires IsDigit(a) && IsDigit(b) && IsDigit(c)
    ensures Trim(TwoCommas(a, b, c)) != "" && PyStrip(TwoCommas(a, b, c)) != ""
    ensures ';' !in TwoCommas(a, b, c)
  {
    var s := TwoCommas(a, b, c);
    TwoCommasNumeral(a, b, c);
    NumeralChars(s);
    BlankIffAllSpace(s, IsSpace);
    BlankIffAllSpace(s, IsPySpace);
  }

  /** The dashboard reads a cleaned cell that `parseFloat` reads. */
  lemma ExtractFromClean(s: string, v: real)
    requires Trim(s) != "" && ';' !in s
    requires JsParseFloat(LocaleClean(s)) == Some(v)
    ensures ExtractValue(s) == v
  {
  }

  /** The Python script reads 0 from a cell whose clean-up `float` rejects. */
  lemma ParseRejectedClean(s: string)
    requires PyStrip(s) != "" && ';' !in s
    requires PyFloat(PyClean(s)) == None
    ensures ParseFloatValue(s) == 0.0
  {
  }

  /** The dashboard reads `a,b,c` as `a.b`. */
  lemma DashboardReadsTwoCommas(a: char, b: char, c: char)
    requires IsDigit(a) && IsDigit(b) && IsDigit(c)
    ensures ExtractValue(TwoCommas(a, b, c)) == DigitValue(a) as real + DigitValue(b) as real / 10.0
  {
    var t := TwoPoints(a, b, c);
    var v := DigitValue(a) as real + DigitValue(b) as real / 10.0;
    assert JsParseFloat(t) == Some(v) by {
      ScanTwoPoints(a, b, c);
      JsReadsScan(t, Scan(v, 3));
    }
    LocaleCleanTwoCommas(a, b, c);
    TwoCommasNotBlank(a, b, c);
    ExtractFromClean(TwoCommas(a, b, c), v);
  }

  /** The Python script reads `a,b,c` as 0. */
  lemma PythonRejectsTwoCommas(a: char, b: char, c: char)
    requires IsDigit(a) && IsDigit(b) && IsDigit(c)
    ensures ParseFloatValue(TwoCommas(a, b, c)) == 0.0
  {
    var t := TwoPoints(a, b, c);
    PyCleanTwoCommas(a, b, c);
    ScanTwoPoints(a, b, c);
    TwoCommasNumeral(a, b, c);
    StripNumeral(t);
    NumeralChars(t);
    PyFloatPartial(t, Scan(DigitValue(a) as real + DigitValue(b) as real / 10.0, 3));
    TwoCommasNotBlank(a, b, c);
    ParseRejectedClean(TwoCommas(a, b, c));
  }

  /** The two parsers differ on a cell with two decimal commas, such as `1,2,3`: the dashboard reads
      the prefix `1.2` of `1.2.3`, the Python script's `float` rejects the whole and reads 0. */
  lemma PythonRejectsWhatDashboardReads(a: char, b: char, c: char)
    requires IsDigit(a) && IsDigit(b) && IsDigit(c)
    ensures ExtractValue(TwoCommas(a, b, c)) > ParseFloatValue(TwoCommas(a, b, c)) || DigitValue(a) + DigitValue(b) == 0
    ensures ParseFloatValue(TwoCommas(a, b, c)) == 0.0
  {
    DashboardReadsTwoCommas(a, b, c);
    PythonRejectsTwoCommas(a, b, c);
  }
  // ----- Trimming before the clean-up -----

  /** White space around a string is removed by the first two clean-up steps, as if it were not
      there. */
  lemma CleanPadded(p: string, m: string, q: string)
    requires forall i :: 0 <= i < |p| ==> IsSpace(p[i])
    requires forall i :: 0 <= i < |q| ==> IsSpace(q[i])
    ensures RemoveWhere(RemovePair(p + (m + q), 'R', '$'), IsSpace) == RemoveWhere(RemovePair(m, 'R', '$'), IsSpace)
  {
    RemovePairPrefix(p, m + q, 'R', '$');
    RemovePairSuffix(m, q, 'R', '$');
    var r := RemovePair(m, 'R', '$');
    RemoveWhereAppend(p, r + q, IsSpace);
    RemoveWhereAppend(r, q, IsSpace);
    RemoveWhereAll(p, IsSpace);
    RemoveWhereAll(q, IsSpace);
  }

  /** Trimming a cell before cleaning it changes nothing: trimming removes only white space, which
      the clean-up removes anyway, and no `R$` starts or ends in it. */
  lemma TrimmedClean(s: string)
    ensures LocaleClean(Trim(s)) == LocaleClean(s)
  {
    var a, e := TrimStart(s, IsSpace), TrimEnd(s, IsSpace);
    TrimWithBounds(s, IsSpace);
    var p, m, q := s[..a], s[a..e], s[e..];
    assert s == p + (m + q);
    CleanPadded(p, m, q);
  }

  /** So the trimmed and the untrimmed cell are the same amount. */
  lemma TrimmedAmount(s: string)
    ensures JsAmount(Trim(s)) == JsAmount(s)
  {
    TrimmedClean(s);
  }
}
