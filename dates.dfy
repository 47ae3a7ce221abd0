/**
 * Calendar dates as the application stores them (a SQL DATE column), the
 * `YYYY-MM-DD` text form produced by `strftime('%Y-%m-%d')`, and the parser
 * that `datetime.strptime(text, '%Y-%m-%d')` implements.
 */
module Dates {
  import opened Options

  datatype Date = Date(year: int, month: int, day: int)

  predicate IsLeapYear(y: int) {
    y % 4 == 0 && (y % 100 != 0 || y % 400 == 0)
  }

  /** Number of days of month `m` (1..12) in year `y`, Gregorian calendar. */
  function DaysInMonth(y: int, m: int): (n: int)
    ensures 28 <= n <= 31
    ensures n == 29 <==> m == 2 && IsLeapYear(y)
  {
    if m == 2 then (if IsLeapYear(y) then 29 else 28)
    else if m == 4 || m == 6 || m == 9 || m == 11 then 30
    else 31
  }

  /** A date Python's `datetime.date` accepts: years 1..9999 and a day that exists. */
  predicate ValidDate(d: Date) {
    1 <= d.year <= 9999 && 1 <= d.month <= 12 && 1 <= d.day <= DaysInMonth(d.year, d.month)
  }

  /** Chronological order: by year, then month, then day. */
  predicate Before(a: Date, b: Date) {
    a.year < b.year
    || (a.year == b.year && (a.month < b.month || (a.month == b.month && a.day < b.day)))
  }

  /** An integer sort key for a date; used wherever the database orders by date. */
  function Ordinal(d: Date): int {
    d.year * 512 + d.month * 32 + d.day
  }

  /** On valid dates the sort key is faithful to chronological order and to equality. */
  lemma OrdinalOrder(a: Date, b: Date)
    requires ValidDate(a) && ValidDate(b)
    ensures Before(a, b) <==> Ordinal(a) < Ordinal(b)
    ensures a == b <==> Ordinal(a) == Ordinal(b)
  {
    if a.year < b.year {
      assert Ordinal(a) <= a.year * 512 + 12 * 32 + 31;
      assert a.year * 512 + 512 <= b.year * 512;
    } else if b.year < a.year {
      assert Ordinal(b) <= b.year * 512 + 12 * 32 + 31;
      assert b.year * 512 + 512 <= a.year * 512;
    }
  }

  // ---------------------------------------------------------------------
  // Digits

  predicate IsDigit(c: char) {
    '0' <= c <= '9'
  }

  function DigitValue(c: char): int
    requires IsDigit(c)
  {
    c as int - '0' as int
  }

  function DigitChar(n: int): char
    requires 0 <= n <= 9
  {
    ('0' as int + n) as char
  }

  /** `n` (0..99) as two digits, zero-padded: `%m` and `%d` in strftime. */
  function Pad2(n: int): (s: string)
    requires 0 <= n <= 99
    ensures |s| == 2 && IsDigit(s[0]) && IsDigit(s[1])
    ensures 10 * DigitValue(s[0]) + DigitValue(s[1]) == n
  {
    [DigitChar(n / 10), DigitChar(n % 10)]
  }

  /** `n` (0..9999) as four digits, zero-padded: `%Y` in strftime. */
  function Pad4(n: int): (s: string)
    requires 0 <= n <= 9999
    ensures |s| == 4 && IsDigit(s[0]) && IsDigit(s[1]) && IsDigit(s[2]) && IsDigit(s[3])
    ensures 1000 * DigitValue(s[0]) + 100 * DigitValue(s[1]) + 10 * DigitValue(s[2]) + DigitValue(s[3]) == n
  {
    var hi, lo := n / 100, n % 100;
    assert n == 100 * hi + lo;
    var s := Pad2(hi) + Pad2(lo);
    assert s[0] == Pad2(hi)[0] && s[1] == Pad2(hi)[1] && s[2] == Pad2(lo)[0] && s[3] == Pad2(lo)[1];
    s
  }

  // ---------------------------------------------------------------------
  // Formatting and parsing

  /** `d.strftime('%Y-%m-%d')`. */
  function FormatDate(d: Date): (s: string)
    requires ValidDate(d)
    ensures |s| == 10 && s[4] == '-' && s[7] == '-'
  {
    Pad4(d.year) + "-" + Pad2(d.month) + "-" + Pad2(d.day)
  }

  /** Python's `<` on strings: lexicographic order by code point. */
  predicate StrLess(a: string, b: string) {
    if a == [] then b != []
    else if b == [] then false
    else a[0] < b[0] || (a[0] == b[0] && StrLess(a[1..], b[1..]))
  }

  /** Behind a common-length prefix, order is decided by the prefixes unless they are equal. */
  lemma {:induction false} StrLessAppend(p: string, q: string, x: string, y: string)
    requires |p| == |q|
    ensures StrLess(p + x, q + y) == if p == q then StrLess(x, y) else StrLess(p, q)
  {
    if p == [] {
      assert p + x == x && q + y == y;
    } else {
      assert (p + x)[0] == p[0] && (q + y)[0] == q[0];
      assert (p + x)[1..] == p[1..] + x;
      assert (q + y)[1..] == q[1..] + y;
      StrLessAppend(p[1..], q[1..], x, y);
      if p[0] == q[0] && p[1..] == q[1..] {
        assert p == [p[0]] + p[1..] && q == [q[0]] + q[1..];
      }
    }
  }

  lemma Pad2Order(m: int, n: int)
    requires 0 <= m <= 99 && 0 <= n <= 99
    ensures StrLess(Pad2(m), Pad2(n)) <==> m < n
    ensures Pad2(m) == Pad2(n) <==> m == n
  {
    var a, b := Pad2(m), Pad2(n);
    assert m == 10 * (m / 10) + m % 10 && n == 10 * (n / 10) + n % 10;
    assert a[0] < b[0] <==> m / 10 < n / 10;
    assert a[1] < b[1] <==> m % 10 < n % 10;
    assert StrLess(a[1..], b[1..]) <==> a[1] < b[1] by {
      assert a[1..][1..] == [] && b[1..][1..] == [];
    }
  }

  lemma Pad4Order(m: int, n: int)
    requires 0 <= m <= 9999 && 0 <= n <= 9999
    ensures StrLess(Pad4(m), Pad4(n)) <==> m < n
    ensures Pad4(m) == Pad4(n) <==> m == n
  {
    assert m == 100 * (m / 100) + m % 100 && n == 100 * (n / 100) + n % 100;
    Pad2Order(m / 100, n / 100);
    Pad2Order(m % 100, n % 100);
    StrLessAppend(Pad2(m / 100), Pad2(n / 100), Pad2(m % 100), Pad2(n % 100));
    if Pad4(m) == Pad4(n) {
      assert Pad2(m / 100) == Pad4(m)[..2] && Pad2(n / 100) == Pad4(n)[..2];
      assert Pad2(m % 100) == Pad4(m)[2..] && Pad2(n % 100) == Pad4(n)[2..];
    }
  }

  /**
   * The `%m-` part of strptime's pattern: the alternatives `1[0-2]`, `0[1-9]`
   * and `[1-9]`, each followed by `-`. At most one of them can be followed by
   * the dash, so the result is unambiguous. Gives the month and the rest of the text.
   */
  function MonthField(t: string): (r: Option<(int, string)>)
    ensures r.Some? ==> 1 <= r.value.0 <= 12 && |r.value.1| < |t|
  {
    if |t| >= 3 && t[0] == '1' && '0' <= t[1] <= '2' && t[2] == '-' then
      Some((10 + DigitValue(t[1]), t[3..]))
    else if |t| >= 3 && t[0] == '0' && '1' <= t[1] <= '9' && t[2] == '-' then
      Some((DigitValue(t[1]), t[3..]))
    else if |t| >= 2 && '1' <= t[0] <= '9' && t[1] == '-' then
      Some((DigitValue(t[0]), t[2..]))
    else
      None
  }

  /**
   * The `%d` part of strptime's pattern: the first of the alternatives `3[01]`,
   * `[12]\d`, `0[1-9]`, `[1-9]`, ` [1-9]` that matches a prefix is taken, and the
   * parse fails ("unconverted data remains") unless it consumed the whole text.
   */
  function DayField(t: string): (r: Option<int>)
    ensures r.Some? ==> 1 <= r.value <= 31
  {
    if |t| >= 2 && t[0] == '3' && '0' <= t[1] <= '1' then
      (if |t| == 2 then Some(30 + DigitValue(t[1])) else None)
    else if |t| >= 2 && '1' <= t[0] <= '2' && IsDigit(t[1]) then
      (if |t| == 2 then Some(10 * DigitValue(t[0]) + DigitValue(t[1])) else None)
    else if |t| >= 2 && t[0] == '0' && '1' <= t[1] <= '9' then
      (if |t| == 2 then Some(DigitValue(t[1])) else None)
    else if |t| >= 1 && '1' <= t[0] <= '9' then
      (if |t| == 1 then Some(DigitValue(t[0])) else None)
    else if |t| >= 2 && t[0] == ' ' && '1' <= t[1] <= '9' then
      (if |t| == 2 then Some(DigitValue(t[1])) else None)
    else
      None
  }

  /**
   * `datetime.strptime(s, '%Y-%m-%d').date()`, with `None` for the ValueError:
   * a four-digit year, a dash, the month field, the day field, and a day that
   * exists in that month (year 0 is refused too).
   */
  function ParseDate(s: string): (r: Option<Date>)
    ensures r.Some? ==> ValidDate(r.value)
  {
    if |s| < 5 || !(IsDigit(s[0]) && IsDigit(s[1]) && IsDigit(s[2]) && IsDigit(s[3])) || s[4] != '-' then
      None
    else
      var year := 1000 * DigitValue(s[0]) + 100 * DigitValue(s[1]) + 10 * DigitValue(s[2]) + DigitValue(s[3]);
      match MonthField(s[5..])
      case None => None
      case Some((month, rest)) =>
        match DayField(rest)
        case None => None
        case Some(day) =>
          if ValidDate(Date(year, month, day)) then Some(Date(year, month, day)) else None
  }

  /** Reading back what strftime wrote gives the date that was written. */
  lemma ParseFormat(d: Date)
    requires ValidDate(d)
    ensures ParseDate(FormatDate(d)) == Some(d)
  {
    var s := FormatDate(d);
    var y, m, dd := Pad4(d.year), Pad2(d.month), Pad2(d.day);
    assert s[..4] == y && s[5..] == m + "-" + dd;
    assert MonthField(s[5..]) == Some((d.month, dd)) by {
      var t := s[5..];
      assert t[0] == m[0] && t[1] == m[1] && t[2] == '-' && t[3..] == dd;
    }
    assert DayField(dd) == Some(d.day);
  }

  /** Two valid dates print the same text exactly when they are the same date. */
  lemma FormatInjective(a: Date, b: Date)
    requires ValidDate(a) && ValidDate(b)
    ensures FormatDate(a) == FormatDate(b) <==> a == b
  {
    if FormatDate(a) == FormatDate(b) {
      ParseFormat(a);
      ParseFormat(b);
    }
  }

  /**
   * Sorting the `YYYY-MM-DD` texts as strings puts the dates in chronological
   * order: on valid dates, string order of the formatted texts is `Before`.
   */
  lemma FormatOrder(a: Date, b: Date)
    requires ValidDate(a) && ValidDate(b)
    ensures StrLess(FormatDate(a), FormatDate(b)) <==> Before(a, b)
  {
    var ra := "-" + (Pad2(a.month) + ("-" + Pad2(a.day)));
    var rb := "-" + (Pad2(b.month) + ("-" + Pad2(b.day)));
    assert FormatDate(a) == Pad4(a.year) + ra;
    assert FormatDate(b) == Pad4(b.year) + rb;
    Pad4Order(a.year, b.year);
    StrLessAppend(Pad4(a.year), Pad4(b.year), ra, rb);
    StrLessAppend("-", "-", Pad2(a.month) + ("-" + Pad2(a.day)), Pad2(b.month) + ("-" + Pad2(b.day)));
    Pad2Order(a.month, b.month);
    StrLessAppend(Pad2(a.month), Pad2(b.month), "-" + Pad2(a.day), "-" + Pad2(b.day));
    StrLessAppend("-", "-", Pad2(a.day), Pad2(b.day));
    Pad2Order(a.day, b.day);
  }
}
