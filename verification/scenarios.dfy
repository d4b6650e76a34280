/** Worked cases of the rules the report follows. */
module Scenarios {
  import opened Wrappers
  import Decimal
  import Dates
  import Rounding

  /** Python's `round` sends halves to the even neighbour: 5/2 gives 2,
      7/2 gives 4, and 7/3 gives 2. */
  lemma RoundingCases()
    ensures Rounding.RoundHalfEven(5, 2) == 2
    ensures Rounding.RoundHalfEven(7, 2) == 4
    ensures Rounding.RoundHalfEven(7, 3) == 2
  {
  }

  /** A two-digit field is ten times its first digit plus its second. */
  lemma TwoDigits(y: string)
    requires |y| == 2 && Decimal.AllDigits(y)
    ensures Decimal.Value(y) == 10 * Decimal.DigitValue(y[0]) + Decimal.DigitValue(y[1])
  {
    assert y[..1] == [y[0]];
    assert y[..1][..0] == [];
  }

  /** A four-digit field is a hundred times its first two digits plus its
      last two. */
  lemma FourDigits(y: string)
    requires |y| == 4 && Decimal.AllDigits(y)
    ensures Decimal.Value(y) == 100 * Decimal.Value(y[..2]) + 10 * Decimal.DigitValue(y[2]) + Decimal.DigitValue(y[3])
  {
    assert y[..3][..2] == y[..2];
  }

  /** The three numbers of a `YYYY/MM/DD` prefix, digit by digit. */
  lemma Fields(p: string)
    requires |p| == 10 && p[4] == '/' && p[7] == '/'
    requires Decimal.IsDigit(p[0]) && Decimal.IsDigit(p[1]) && Decimal.IsDigit(p[2]) && Decimal.IsDigit(p[3])
    requires Decimal.IsDigit(p[5]) && Decimal.IsDigit(p[6]) && Decimal.IsDigit(p[8]) && Decimal.IsDigit(p[9])
    ensures Dates.WellShaped(p)
    ensures Decimal.Value(p[..4]) == 1000 * Decimal.DigitValue(p[0]) + 100 * Decimal.DigitValue(p[1])
                                     + 10 * Decimal.DigitValue(p[2]) + Decimal.DigitValue(p[3])
    ensures Decimal.Value(p[5..7]) == 10 * Decimal.DigitValue(p[5]) + Decimal.DigitValue(p[6])
    ensures Decimal.Value(p[8..]) == 10 * Decimal.DigitValue(p[8]) + Decimal.DigitValue(p[9])
  {
    var y, m, d := p[..4], p[5..7], p[8..];
    assert y[0] == p[0] && y[1] == p[1] && y[2] == p[2] && y[3] == p[3];
    assert m[0] == p[5] && m[1] == p[6] && d[0] == p[8] && d[1] == p[9];
    assert y[..2][0] == p[0] && y[..2][1] == p[1];
    FourDigits(y);
    TwoDigits(y[..2]);
    TwoDigits(m);
    TwoDigits(d);
  }

  /** 29 February exists in 2020 but not in 2021 or 1900. */
  lemma LeapDay2020()
    ensures Dates.ParsePrefix("2020/02/29") == Success(Dates.Date(2020, 2, 29))
  {
    Fields("2020/02/29");
  }

  lemma NoLeapDay2021()
    ensures Dates.ParsePrefix("2021/02/29") == Failure(Dates.Malformed("2021/02/29"))
  {
    Fields("2021/02/29");
  }

  /** Centuries are leap years only when divisible by 400. */
  lemma CenturyLeapRule()
    ensures Dates.IsLeap(2000) && !Dates.IsLeap(1900)
    ensures Dates.ParsePrefix("1900/02/29") == Failure(Dates.Malformed("1900/02/29"))
  {
    Fields("1900/02/29");
  }

  /** The day before the first whole day a pandas timestamp can hold is out
      of bounds. */
  lemma BeforeFirstDay()
    ensures Dates.ParsePrefix("1677/09/21") == Failure(Dates.OutOfBounds("1677/09/21"))
  {
    Fields("1677/09/21");
  }

  /** The first whole day a pandas timestamp can hold parses. */
  lemma FirstDayParses()
    ensures Dates.ParsePrefix("1677/09/22") == Success(Dates.FirstDay)
  {
    Fields("1677/09/22");
  }
}
