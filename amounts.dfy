/** Numeric parsing of cell values: the Brazilian-locale clean-up every parser applies
    (drop `R$` and white space, delete the thousands dots, turn the decimal comma into a point),
    JavaScript's `parseFloat` and `parseInt`, and Python's `float`. Amounts are exact reals. */
module Amounts {
  import opened Common
  import opened Text

  predicate IsDigit(c: char) {
    '0' <= c <= '9'
  }

  predicate IsHexDigit(c: char) {
    IsDigit(c) || ('a' <= c <= 'f') || ('A' <= c <= 'F')
  }

  /** A digit of base 16 when `base` is 16, of base 10 otherwise. */
  predicate IsDigitIn(c: char, base: nat) {
    if base == 16 then IsHexDigit(c) else IsDigit(c)
  }

  /** The value of one digit in base 16 (which covers base 10). */
  function DigitValue(c: char): (v: nat)
    ensures v < 16
    ensures IsDigit(c) ==> v < 10
  {
    if IsDigit(c) then c as int - '0' as int
    else if 'a' <= c <= 'f' then c as int - 'a' as int + 10
    else if 'A' <= c <= 'F' then c as int - 'A' as int + 10
    else 0
  }

  /** The digits `d`, most significant first, read onto the number `acc` already read. */
  function Horner(acc: nat, d: string, base: nat): nat
    decreases |d|
  {
    if |d| == 0 then acc else Horner(acc * base + DigitValue(d[0]), d[1..], base)
  }

  /** `x * 10^e`, by repeated multiplication or division by ten. */
  function Shift(x: real, e: int): real
    decreases if e >= 0 then e else -e
  {
    if e == 0 then x else if e > 0 then 10.0 * Shift(x, e - 1) else Shift(x, e + 1) / 10.0
  }

  /** The run of digits of `base` starting at index `i` of `s`, read onto `acc`: where it ends and
      the number read. */
  function DigitsFrom(s: string, i: nat, acc: nat, base: nat): (r: (nat, nat))
    requires i <= |s|
    ensures i <= r.0 <= |s|
    ensures forall k :: i <= k < r.0 ==> IsDigitIn(s[k], base)
    ensures r.0 == |s| || !IsDigitIn(s[r.0], base)
    decreases |s| - i
  {
    if i < |s| && IsDigitIn(s[i], base) then DigitsFrom(s, i + 1, acc * base + DigitValue(s[i]), base)
    else (i, acc)
  }

  /** A decimal literal read from some index: its value and the index just after it. */
  datatype Scan = Scan(value: real, end: nat)

  /** The exponent part `e`/`E`, an optional sign and at least one digit at index `i` of `s`, as
      (index after it, exponent); (i, 0) when there is none. */
  function ExponentAt(s: string, i: nat): (r: (nat, int))
    requires i <= |s|
    ensures i <= r.0 <= |s|
  {
    if i < |s| && (s[i] == 'e' || s[i] == 'E') then
      var p := if i + 1 < |s| && (s[i + 1] == '+' || s[i + 1] == '-') then i + 2 else i + 1;
      var (de, dv) := DigitsFrom(s, p, 0, 10);
      if de == p then (i, 0) else (de, if p == i + 2 && s[i + 1] == '-' then -(dv as int) else dv)
    else (i, 0)
  }

  /** The longest decimal literal `[+-]? (d+ (. d*)? | . d+) ([eE][+-]?d+)?` starting at index `i`
      of `s`, or None when no digit comes before or after its point. */
  function ScanAt(s: string, i: nat): (r: Option<Scan>)
    requires i <= |s|
    ensures r.Some? ==> i < r.value.end <= |s|
  {
    var p := if i < |s| && (s[i] == '+' || s[i] == '-') then i + 1 else i;
    var neg := p == i + 1 && s[i] == '-';
    var (ie, iv) := DigitsFrom(s, p, 0, 10);
    var point := ie < |s| && s[ie] == '.';
    var (fe, fv) := if point then DigitsFrom(s, ie + 1, 0, 10) else (ie, 0);
    var nf := if point then fe - ie - 1 else 0;
    if ie == p && nf == 0 then None
    else
      var (ee, ev) := ExponentAt(s, fe);
      var mag := Shift(iv as real + Shift(fv as real, -nf), ev);
      Some(Scan(if neg then -mag else mag, ee))
  }

  /** JavaScript's `parseFloat(s)`: leading white space is skipped and the longest decimal prefix is
      read; None stands for `NaN`. */
  function JsParseFloat(s: string): Option<real> {
    match ScanAt(s, LeadingCount(s, IsSpace))
    case None => None
    case Some(sc) => Some(sc.value)
  }

  /** JavaScript's `parseInt(s)` with no radix: leading white space is skipped, then a sign, then
      hexadecimal digits after `0x`/`0X` or else decimal digits; None stands for `NaN`. */
  function JsParseInt(s: string): Option<int> {
    var i := LeadingCount(s, IsSpace);
    var p := if i < |s| && (s[i] == '+' || s[i] == '-') then i + 1 else i;
    var neg := p == i + 1 && s[i] == '-';
    var hex := p + 1 < |s| && s[p] == '0' && (s[p + 1] == 'x' || s[p + 1] == 'X');
    var start := if hex then p + 2 else p;
    var (e, v) := DigitsFrom(s, start, 0, if hex then 16 else 10);
    if e == start then None else Some(if neg then -(v as int) else v)
  }

  /** The clean-up `.replace(/R\$/g, '').replace(/\s/g, '').replace(/\./g, '').replace(/,/g, '.')`. */
  function LocaleClean(s: string): string {
    ReplaceChar(RemoveChar(RemoveWhere(RemovePair(s, 'R', '$'), IsSpace), '.'), ',', '.')
  }

  /** `parseFloat(<clean-up of s>) || 0`: the locale-parsed amount, 0 when it is `NaN`. */
  function JsAmount(s: string): real {
    JsParseFloat(LocaleClean(s)).GetOr(0.0)
  }

  /** `extractValue` of the campaign extractor (src/services/dataService.ts): 0 for an empty or blank
      cell, or one containing `;`, else the locale-parsed amount. */
  function ExtractValue(value: string): (r: real)
    ensures value == "" || Trim(value) == "" || ';' in value ==> r == 0.0
    ensures !(Trim(value) == "" || ';' in value) ==> r == JsAmount(value)
  {
    if value == "" || Trim(value) == "" || ';' in value then 0.0 else JsAmount(value)
  }

  /** The sale test of the dashboard (`hasValidSale`, and the per-product test of `uniqueBuyers`):
      a non-blank cell without `;` whose locale-parsed amount is positive. */
  predicate IsPositiveSale(raw: string) {
    if raw == "" || Trim(raw) == "" then false
    else if ';' in raw then false
    else JsAmount(raw) > 0.0
  }

  /** The dashboard's sale test and the campaign extractor's parser agree: a cell is a sale exactly
      when `extractValue` gives it a positive amount. */
  lemma SaleIffPositiveValue(raw: string)
    ensures IsPositiveSale(raw) <==> ExtractValue(raw) > 0.0
  {
  }

  /** `toNumericOrNull` of `saveLeads`: None for an empty or blank value, else the locale-parsed
      amount, or None when that is `NaN`. */
  function ToNumericOrNull(value: string): (r: Option<real>)
    ensures Trim(value) == "" ==> r == None
    ensures r.Some? ==> r.value == JsAmount(value)
    ensures Trim(value) != "" && JsAmount(value) != 0.0 ==> r == Some(JsAmount(value))
  {
    if value == "" || Trim(value) == "" then None else JsParseFloat(LocaleClean(value))
  }

  /** Every `_` of `t` stands between two digits, the only place Python's numeric literals allow
      one. */
  predicate UnderscoresBetweenDigits(t: string) {
    forall i :: 0 <= i < |t| && t[i] == '_' ==> 0 < i < |t| - 1 && IsDigit(t[i - 1]) && IsDigit(t[i + 1])
  }

  /** Python's `float(s)`: apart from surrounding white space the whole string must be a decimal
      literal, whose digits may be grouped by single underscores (`1_000`); None stands for the
      `ValueError`. The words `inf`, `infinity` and `nan` and non-ASCII digits are not modelled. */
  function PyFloat(s: string): Option<real> {
    var t := PyStrip(s);
    if !UnderscoresBetweenDigits(t) then None
    else
      var u := RemoveChar(t, '_');
      match ScanAt(u, 0)
      case Some(sc) => if sc.end == |u| then Some(sc.value) else None
      case None => None
  }

  /** The clean-up of check_adset_sales_data.py: `.replace('R$', '').replace(' ', '')
      .replace('.', '').replace(',', '.')` (only the ASCII space is removed). */
  function PyClean(s: string): string {
    ReplaceChar(RemoveChar(RemoveChar(RemovePair(s, 'R', '$'), ' '), '.'), ',', '.')
  }

  /** `parse_float_value`: 0 for an empty or blank value or one containing `;`, else `float` of the
      cleaned value, and 0 when `float` rejects it. */
  function ParseFloatValue(value: string): (r: real)
    ensures value == "" || PyStrip(value) == "" || ';' in value ==> r == 0.0
    ensures !(value == "" || PyStrip(value) == "" || ';' in value) ==> r == PyFloat(PyClean(value)).GetOr(0.0)
  {
    if value == "" || PyStrip(value) == "" || ';' in value then 0.0
    else PyFloat(PyClean(value)).GetOr(0.0)
  }
}
