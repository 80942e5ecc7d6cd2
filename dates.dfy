/** What the dashboard reads off a JavaScript `Date` (src/components/Dashboard.tsx): the `YYYY-MM`
    month key of `formatMonthYear`, its order, and the whole-day difference of a conversion. */
module Dates {
  import opened Common
  import opened Amounts
  import opened AmountFacts
  import opened Sorting

  /** A parsed date as the dashboard uses it: `getTime()` in milliseconds, and in local time
      `getFullYear()`, `getMonth()` (0 for January), `getDay()` (0 for Sunday) and `getHours()`. */
  datatype Moment = Moment(time: int, year: int, month: nat, weekday: nat, hour: nat)

  type Date = d: Moment | d.month < 12 && d.weekday < 7 && d.hour < 24
    witness Moment(0, 1970, 0, 4, 0)

  /** `parseDate`: `new Date(s)`, None when its time is `NaN`. The engine's date parser and time
      zone are not modelled: every operation that reads dates takes this function as a parameter. */
  type DateParser = string -> Option<Date>

  // ----- Month keys -----

  /** `${d.getFullYear()}`: the year's decimal numeral, with a minus sign before a negative year. */
  function YearText(year: int): (s: string)
    ensures |s| >= 1
  {
    if year < 0 then "-" + Digits(-year) else Digits(year)
  }

  /** `formatMonthYear(d)`: the year, `-`, and the 1-based month padded to two digits. */
  function MonthKey(d: Date): (k: string)
    ensures |k| == |YearText(d.year)| + 3
  {
    YearText(d.year) + "-" + Pad2(d.month + 1)
  }

  /** `formatMonthYear` of a date that may be null. */
  function MonthKeyOf(d: Option<Date>): (k: Option<string>)
    ensures k.Some? <==> d.Some?
  {
    match d
    case None => None
    case Some(date) => Some(MonthKey(date))
  }

  lemma DigitCharInjective(a: nat, b: nat)
    requires a < 10 && b < 10
    ensures DigitChar(a) == DigitChar(b) <==> a == b
    ensures DigitChar(a) < DigitChar(b) <==> a < b
  {
  }

  lemma DigitsInjective(a: nat, b: nat)
    requires Digits(a) == Digits(b)
    ensures a == b
  {
    HornerDigits(a);
    HornerDigits(b);
  }

  /** A year's text starts with a minus sign exactly when the year is negative. */
  lemma YearTextSign(year: int)
    ensures YearText(year)[0] == '-' <==> year < 0
  {
    if year >= 0 {
      assert IsDigit(Digits(year)[0]);
    }
  }

  lemma YearTextInjective(a: int, b: int)
    requires YearText(a) == YearText(b)
    ensures a == b
  {
    YearTextSign(a);
    YearTextSign(b);
    if a < 0 {
      assert Digits(-a) == YearText(a)[1..];
      assert Digits(-b) == YearText(b)[1..];
      DigitsInjective(-a, -b);
    } else {
      DigitsInjective(a, b);
    }
  }

  lemma Pad2Injective(a: nat, b: nat)
    requires a < 100 && b < 100 && Pad2(a) == Pad2(b)
    ensures a == b
  {
    DigitCharInjective(a / 10, b / 10);
    DigitCharInjective(a % 10, b % 10);
  }

  /** Two dates share a month key exactly when they fall in the same month of the same year. */
  lemma MonthKeyInjective(a: Date, b: Date)
    ensures MonthKey(a) == MonthKey(b) <==> a.year == b.year && a.month == b.month
  {
    if MonthKey(a) == MonthKey(b) {
      var ka := MonthKey(a);
      var kb := MonthKey(b);
      var ya := YearText(a.year);
      var yb := YearText(b.year);
      assert ka[..|ya|] == ya;
      assert kb[..|yb|] == yb;
      assert ka[|ya| + 1..] == Pad2(a.month + 1);
      assert kb[|yb| + 1..] == Pad2(b.month + 1);
      YearTextInjective(a.year, b.year);
      Pad2Injective(a.month + 1, b.month + 1);
    }
  }

  // ----- Month keys sort chronologically -----

  /** Code-point order of two strings that start with parts of the same length: the first parts
      decide, unless they are equal. */
  lemma {:induction false} LexLeAppend(a: string, s: string, b: string, t: string)
    requires |a| == |b|
    ensures LexLe(a + s, b + t) <==> if a == b then LexLe(s, t) else LexLe(a, b)
  {
    if |a| > 0 {
      assert (a + s)[1..] == a[1..] + s;
      assert (b + t)[1..] == b[1..] + t;
      LexLeAppend(a[1..], s, b[1..], t);
      if a[0] == b[0] && a[1..] == b[1..] {
        assert a == [a[0]] + a[1..] && b == [b[0]] + b[1..];
      }
    } else {
      assert a + s == s && b + t == t;
    }
  }

  lemma DigitsShort(n: nat)
    ensures |Digits(n)| == 1 <==> n < 10
  {
  }

  /** Numerals of the same length sort as their numbers. */
  lemma {:induction false} DigitsOrder(n: nat, m: nat)
    requires |Digits(n)| == |Digits(m)|
    ensures LexLe(Digits(n), Digits(m)) <==> n <= m
  {
    DigitsShort(n);
    DigitsShort(m);
    if n < 10 {
      DigitCharInjective(n, m);
      assert [DigitChar(n)][1..] == [] && [DigitChar(m)][1..] == [];
    } else {
      var hn, hm := Digits(n / 10), Digits(m / 10);
      var cn, cm := [DigitChar(n % 10)], [DigitChar(m % 10)];
      LexLeAppend(hn, cn, hm, cm);
      DigitCharInjective(n % 10, m % 10);
      assert cn[1..] == [] && cm[1..] == [];
      if hn == hm {
        DigitsInjective(n / 10, m / 10);
      } else {
        DigitsOrder(n / 10, m / 10);
      }
    }
  }

  lemma Pad2Order(n: nat, m: nat)
    requires n < 100 && m < 100
    ensures LexLe(Pad2(n), Pad2(m)) <==> n <= m
  {
    var p, q := Pad2(n), Pad2(m);
    LexLeAppend([p[0]], [p[1]], [q[0]], [q[1]]);
    assert p == [p[0]] + [p[1]] && q == [q[0]] + [q[1]];
    DigitCharInjective(n / 10, m / 10);
    DigitCharInjective(n % 10, m % 10);
    assert [p[1]][1..] == [] && [q[1]][1..] == [];
  }

  /** `(year, month)` in chronological order. */
  predicate SameOrEarlierMonth(a: Date, b: Date) {
    a.year < b.year || (a.year == b.year && a.month <= b.month)
  }

  /** For years written with the same number of digits (every year from 1000 to 9999, say), the
      string order of `Object.keys(monthly).sort()` is the chronological order of the months. */
  lemma MonthKeyOrder(a: Date, b: Date)
    requires 0 <= a.year && 0 <= b.year && |Digits(a.year)| == |Digits(b.year)|
    ensures LexLe(MonthKey(a), MonthKey(b)) <==> SameOrEarlierMonth(a, b)
  {
    var ya, yb := Digits(a.year), Digits(b.year);
    var ta, tb := "-" + Pad2(a.month + 1), "-" + Pad2(b.month + 1);
    assert MonthKey(a) == ya + ta && MonthKey(b) == yb + tb;
    LexLeAppend(ya, ta, yb, tb);
    if ya == yb {
      DigitsInjective(a.year, b.year);
      assert ta[1..] == Pad2(a.month + 1) && tb[1..] == Pad2(b.month + 1);
      Pad2Order(a.month + 1, b.month + 1);
    } else {
      DigitsOrder(a.year, b.year);
    }
  }

  lemma FourDigitYear(y: nat)
    requires 1000 <= y <= 9999
    ensures |Digits(y)| == 4
  {
    assert |Digits(y / 1000)| == 1;
    assert |Digits(y / 100)| == 2;
    assert |Digits(y / 10)| == 3;
  }

  /** The keys of two dates from the years 1000 to 9999 sort chronologically. */
  lemma FourDigitMonthKeyOrder(a: Date, b: Date)
    requires 1000 <= a.year <= 9999 && 1000 <= b.year <= 9999
    ensures LexLe(MonthKey(a), MonthKey(b)) <==> SameOrEarlierMonth(a, b)
  {
    FourDigitYear(a.year);
    FourDigitYear(b.year);
    MonthKeyOrder(a, b);
  }

  // ----- Whole days between two dates -----

  const MsPerDay: int := 1000 * 60 * 60 * 24

  /** `Math.ceil(a / b)` for a positive divisor. */
  function CeilDiv(a: int, b: int): (q: int)
    requires b > 0
    ensures (q - 1) * b < a <= q * b
  {
    -((-a) / b)
  }

  /** `Math.ceil((sale.getTime() - lead.getTime()) / (1000 * 60 * 60 * 24))`: the number of days
      from the lead to the sale, a part day counting as a whole one; negative when the sale date
      comes first. */
  function ConversionDays(lead: Date, sale: Date): (days: int)
    ensures (days - 1) * MsPerDay < sale.time - lead.time <= days * MsPerDay
  {
    CeilDiv(sale.time - lead.time, MsPerDay)
  }

  /** A sale on or after the lead takes a non-negative number of days, and one within the first
      day after it takes at most one. */
  lemma ConversionDaysBounds(lead: Date, sale: Date)
    ensures lead.time <= sale.time ==> ConversionDays(lead, sale) >= 0
    ensures lead.time < sale.time <= lead.time + MsPerDay ==> ConversionDays(lead, sale) == 1
    ensures sale.time == lead.time ==> ConversionDays(lead, sale) == 0
  {
    var d := ConversionDays(lead, sale);
    assert (d - 1) * MsPerDay < sale.time - lead.time <= d * MsPerDay;
  }
}
