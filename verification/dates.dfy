/** The date key of a call: the first ten characters of the call-start
    timestamp read as `%Y/%m/%d` and shown as `%d/%m/%Y`
    (cc_performance.py:42-44). */
module Dates {
  import Lex
  import Decimal
  import opened Wrappers

  datatype Date = Date(year: nat, month: nat, day: nat)

  /** Why a timestamp prefix has no date. */
  datatype DateError =
    | Malformed(prefix: string)    // not `YYYY/MM/DD`, or no such calendar day
    | OutOfBounds(prefix: string)  // a real day outside pandas' nanosecond timestamp range

  predicate IsLeap(y: nat) {
    y % 4 == 0 && (y % 100 != 0 || y % 400 == 0)
  }

  function DaysInMonth(y: nat, m: nat): (n: nat)
    requires 1 <= m <= 12
    ensures 28 <= n <= 31
    ensures m == 2 ==> (n == 29 <==> IsLeap(y))
  {
    if m == 2 then (if IsLeap(y) then 29 else 28)
    else if m == 4 || m == 6 || m == 9 || m == 11 then 30
    else 31
  }

  /** A day of the proleptic Gregorian calendar with a four-digit year. */
  predicate IsCalendarDate(d: Date) {
    1 <= d.year <= 9999 && 1 <= d.month <= 12 && 1 <= d.day <= DaysInMonth(d.year, d.month)
  }

  /** Chronological order. */
  predicate DateLe(a: Date, b: Date) {
    a.year < b.year || (a.year == b.year && (a.month < b.month || (a.month == b.month && a.day <= b.day)))
  }

  predicate DateLt(a: Date, b: Date) {
    DateLe(a, b) && a != b
  }

  /** First and last midnight a nanosecond pandas Timestamp can hold
      (Timestamp.min is 1677-09-21 00:12:43.145224193, Timestamp.max is
      2262-04-11 23:47:16.854775807). */
  const FirstDay := Date(1677, 9, 22)
  const LastDay := Date(2262, 4, 11)

  predicate InTimestampRange(d: Date) {
    DateLe(FirstDay, d) && DateLe(d, LastDay)
  }

  /** A date `to_datetime` turns into a value. */
  predicate IsKeyDate(d: Date) {
    IsCalendarDate(d) && InTimestampRange(d)
  }

  /** The part of a timestamp the report looks at: `x[:10]`. */
  function PrefixOf(timestamp: string): string {
    Lex.Take(timestamp, 10)
  }

  /** `YYYY/MM/DD` with digits in the number fields. */
  predicate WellShaped(p: string) {
    && |p| == 10 && p[4] == '/' && p[7] == '/'
    && Decimal.AllDigits(p[..4]) && Decimal.AllDigits(p[5..7]) && Decimal.AllDigits(p[8..])
  }

  /** `d` written as `%Y/%m/%d`. */
  function FormatPrefix(d: Date): (p: string)
    requires IsCalendarDate(d)
    ensures WellShaped(p)
  {
    var p := Decimal.Pad(d.year, 4) + "/" + Decimal.Pad(d.month, 2) + "/" + Decimal.Pad(d.day, 2);
    assert p[..4] == Decimal.Pad(d.year, 4);
    assert p[5..7] == Decimal.Pad(d.month, 2);
    assert p[8..] == Decimal.Pad(d.day, 2);
    p
  }

  /** `pd.to_datetime(p, format='%Y/%m/%d')` for a single value. */
  function ParsePrefix(p: string): (r: Result<Date, DateError>)
    ensures r.Success? ==> IsKeyDate(r.value)
    ensures r.Failure? ==> r.error.prefix == p
    ensures !WellShaped(p) ==> r == Failure(Malformed(p))
  {
    if !WellShaped(p) then Failure(Malformed(p))
    else
      var d := Date(Decimal.Value(p[..4]), Decimal.Value(p[5..7]), Decimal.Value(p[8..]));
      if !IsCalendarDate(d) then Failure(Malformed(p))
      else if !InTimestampRange(d) then Failure(OutOfBounds(p))
      else Success(d)
  }

  /** A prefix that parses is exactly the `%Y/%m/%d` form of its date, so
      the date determines the prefix. */
  lemma ParseThenFormat(p: string)
    requires ParsePrefix(p).Success?
    ensures FormatPrefix(ParsePrefix(p).value) == p
  {
    var y, m, d := p[..4], p[5..7], p[8..];
    var date := ParsePrefix(p).value;
    assert date == Date(Decimal.Value(y), Decimal.Value(m), Decimal.Value(d));
    Decimal.PadValue(y);
    Decimal.PadValue(m);
    Decimal.PadValue(d);
    assert FormatPrefix(date) == y + "/" + m + "/" + d;
    assert p == y + "/" + m + "/" + d by {
      assert p == p[..4] + p[4..5] + p[5..7] + p[7..8] + p[8..];
    }
  }

  /** The date key of a call-start timestamp. */
  function DateKey(timestamp: string): Result<Date, DateError> {
    ParsePrefix(PrefixOf(timestamp))
  }

  /** A date key is a key date whose `%Y/%m/%d` text is the timestamp's
      first ten characters; a failure names those characters. */
  lemma DateKeyMeaning(timestamp: string)
    ensures DateKey(timestamp).Success? ==>
      IsKeyDate(DateKey(timestamp).value) && FormatPrefix(DateKey(timestamp).value) == PrefixOf(timestamp)
    ensures DateKey(timestamp).Failure? ==> DateKey(timestamp).error.prefix == PrefixOf(timestamp)
  {
    if DateKey(timestamp).Success? {
      ParseThenFormat(PrefixOf(timestamp));
    }
  }

  /** A timestamp that starts with the `%Y/%m/%d` text of a key date has
      that date as its key. */
  lemma DateKeyOfFormatted(timestamp: string, d: Date)
    requires IsKeyDate(d) && FormatPrefix(d) == PrefixOf(timestamp)
    ensures DateKey(timestamp) == Success(d)
  {
    FormatThenParse(d);
  }

  /** `d` written as `%d/%m/%Y`, the form used in the report's column names:
      day, month and four-digit year, separated by slashes. */
  function Render(d: Date): (s: string)
    requires IsCalendarDate(d)
    ensures |s| == 10 && s[2] == '/' && s[5] == '/'
    ensures Decimal.AllDigits(s[..2]) && Decimal.Value(s[..2]) == d.day
    ensures Decimal.AllDigits(s[3..5]) && Decimal.Value(s[3..5]) == d.month
    ensures Decimal.AllDigits(s[6..]) && Decimal.Value(s[6..]) == d.year
  {
    var s := Decimal.Pad(d.day, 2) + "/" + Decimal.Pad(d.month, 2) + "/" + Decimal.Pad(d.year, 4);
    assert s[..2] == Decimal.Pad(d.day, 2);
    assert s[3..5] == Decimal.Pad(d.month, 2);
    assert s[6..] == Decimal.Pad(d.year, 4);
    s
  }

  /** Writing a key date as `%Y/%m/%d` and parsing it back gives the date. */
  lemma FormatThenParse(d: Date)
    requires IsKeyDate(d)
    ensures ParsePrefix(FormatPrefix(d)) == Success(d)
  {
    var p := FormatPrefix(d);
    assert p[..4] == Decimal.Pad(d.year, 4);
    assert p[5..7] == Decimal.Pad(d.month, 2);
    assert p[8..] == Decimal.Pad(d.day, 2);
  }

  /** Two timestamps that both have a date share it exactly when they share
      their ten-character prefix. */
  lemma SameKeyIffSamePrefix(s: string, t: string)
    requires DateKey(s).Success? && DateKey(t).Success?
    ensures DateKey(s) == DateKey(t) <==> PrefixOf(s) == PrefixOf(t)
  {
    ParseThenFormat(PrefixOf(s));
    ParseThenFormat(PrefixOf(t));
  }

  /** Distinct dates get distinct `%d/%m/%Y` names. */
  lemma RenderInjective(a: Date, b: Date)
    requires IsCalendarDate(a) && IsCalendarDate(b)
    requires Render(a) == Render(b)
    ensures a == b
  {
  }

  /** For well-formed prefixes the string order of timestamps is
      chronological order, so sorting by timestamp sorts the dates. */
  lemma PrefixOrderIsChronological(p: string, q: string)
    requires ParsePrefix(p).Success? && ParsePrefix(q).Success?
    ensures Lex.Le(p, q) <==> DateLe(ParsePrefix(p).value, ParsePrefix(q).value)
  {
    var a, b := ParsePrefix(p).value, ParsePrefix(q).value;
    assert a == Date(Decimal.Value(p[..4]), Decimal.Value(p[5..7]), Decimal.Value(p[8..]));
    assert b == Date(Decimal.Value(q[..4]), Decimal.Value(q[5..7]), Decimal.Value(q[8..]));
    FieldThenRest(p, q, 4);
    var p', q' := p[5..], q[5..];
    assert p'[..2] == p[5..7] && q'[..2] == q[5..7];
    assert p'[3..] == p[8..] && q'[3..] == q[8..];
    FieldThenRest(p', q', 2);
    Decimal.LeIsNumeric(p[8..], q[8..]);
  }

  /** A numeric field of width w, a slash, then the rest: the field decides
      unless the two fields are equal. */
  lemma FieldThenRest(p: string, q: string, w: nat)
    requires |p| == |q| && w < |p|
    requires p[w] == '/' && q[w] == '/'
    requires Decimal.AllDigits(p[..w]) && Decimal.AllDigits(q[..w])
    ensures Lex.Le(p, q) <==>
      Decimal.Value(p[..w]) < Decimal.Value(q[..w]) ||
      (Decimal.Value(p[..w]) == Decimal.Value(q[..w]) && Lex.Le(p[w + 1..], q[w + 1..]))
  {
    Lex.SplitAt(p, q, w);
    assert p[w..][1..] == p[w + 1..] && q[w..][1..] == q[w + 1..];
    Decimal.LtIsNumeric(p[..w], q[..w]);
    if Decimal.Value(p[..w]) == Decimal.Value(q[..w]) {
      Decimal.ValueInjective(p[..w], q[..w]);
    }
  }
}
