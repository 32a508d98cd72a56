/** Building the DATE column of the monthly table: the text
    `str(year) + "-" + str(month).zfill(2) + "-01"` and its conversion to a timestamp. */
module DateText {
  import opened Results
  import opened Calendar

  datatype DateError = Malformed | MonthOutOfRange | DayOutOfRange

  predicate IsDigit(c: char) {
    '0' <= c <= '9'
  }

  predicate AllDigits(s: string) {
    forall i :: 0 <= i < |s| ==> IsDigit(s[i])
  }

  function DigitChar(d: int): (c: char)
    requires 0 <= d < 10
    ensures IsDigit(c)
  {
    (48 + d) as char
  }

  function DigitValue(c: char): (d: nat)
    requires IsDigit(c)
    ensures d < 10
  {
    (c as int) - 48
  }

  /** Python's `str` of a non-negative integer: decimal digits without leading zeros. */
  function NatToText(n: nat): (s: string)
    ensures |s| >= 1 && AllDigits(s)
    ensures n < 10 <==> |s| == 1
    ensures n >= 100 ==> |s| >= 3
  {
    if n < 10 then [DigitChar(n)] else NatToText(n / 10) + [DigitChar(n % 10)]
  }

  /** Python's `str` of an integer: a leading '-' for negative values. */
  function IntToText(i: int): (s: string)
    ensures |s| >= 1
    ensures i < 0 ==> |s| >= 2 && s[0] == '-' && s[1..] == NatToText(-i)
    ensures i >= 0 ==> s == NatToText(i)
    ensures i >= 0 ==> AllDigits(s) && ParseNat(s) == Some(i)
    ensures i < 0 ==> AllDigits(s[1..]) && ParseNat(s[1..]) == Some(-i)
  {
    if i < 0 then
      ParseNatRoundTrip(-i);
      var s := "-" + NatToText(-i);
      assert s[1..] == NatToText(-i);
      s
    else
      ParseNatRoundTrip(i);
      NatToText(i)
  }

  function Zeros(n: nat): (s: string)
    ensures |s| == n
    ensures forall i :: 0 <= i < n ==> s[i] == '0'
  {
    if n == 0 then "" else "0" + Zeros(n - 1)
  }

  /** A text that starts with a '+' or '-' sign. */
  predicate Signed(s: string) {
    |s| > 0 && (s[0] == '+' || s[0] == '-')
  }

  /** Python's `str.zfill`: pad on the left with '0' up to `width`, keeping a leading sign in front. */
  function ZFill(s: string, width: nat): (r: string)
    ensures |s| >= width ==> r == s
    ensures |s| < width ==> |r| == width
    ensures |s| < width && Signed(s) ==>
      r[0] == s[0] && (forall k :: 1 <= k <= width - |s| ==> r[k] == '0') && r[width - |s| + 1..] == s[1..]
    ensures |s| < width && !Signed(s) ==>
      (forall k :: 0 <= k < width - |s| ==> r[k] == '0') && r[width - |s|..] == s
  {
    if |s| >= width then s
    else if Signed(s) then [s[0]] + Zeros(width - |s|) + s[1..]
    else Zeros(width - |s|) + s
  }

  /** The text the script builds for the group (year, month). It converts to the first day of
      that month exactly when the month is a real calendar month; any other month makes the
      conversion fail. */
  function DateString(year: nat, month: int): (s: string)
    ensures 1 <= month <= 12 ==> ParseDate(s) == Ok(Date(year, month, 1))
    ensures !(1 <= month <= 12) ==> ParseDate(s).Err?
  {
    var y := NatToText(year);
    var t := ZFill(IntToText(month), 2);
    DigitsHaveNoDash(y);
    SplitDateText(y, t);
    if month >= 0 then
      MonthFieldParses(month);
      DigitsHaveNoDash(t);
      MonthFieldsParse(year, month, t);
      y + "-" + t + "-01"
    else
      y + "-" + t + "-01"
  }

  /** Decimal value of a non-empty digit string. */
  function ParseNat(s: string): (r: Option<nat>)
    ensures r.Some? <==> |s| >= 1 && AllDigits(s)
  {
    if |s| == 0 then None
    else if !IsDigit(s[|s| - 1]) then None
    else if |s| == 1 then Some(DigitValue(s[0]))
    else match ParseNat(s[..|s| - 1])
      case None => None
      case Some(p) => Some(p * 10 + DigitValue(s[|s| - 1]))
  }

  /** Position of the first occurrence of `c` in `s`. */
  function IndexOf(s: string, c: char): (r: Option<nat>)
    ensures r.None? <==> c !in s
    ensures r.Some? ==> r.value < |s| && s[r.value] == c && c !in s[..r.value]
  {
    if |s| == 0 then None
    else if s[0] == c then Some(0)
    else match IndexOf(s[1..], c)
      case None => None
      case Some(i) => Some(i + 1)
  }

  /** A day that exists in the Gregorian calendar. */
  predicate IsCalendarDay(d: Date) {
    d.year >= 0 && 1 <= d.month <= 12 && 1 <= d.day <= DaysInMonth(d.year, d.month)
  }

  /** `pd.to_datetime` on a "YYYY-MM-DD" string: the year, a two-digit month and a two-digit day
      separated by '-', naming a day that exists in the Gregorian calendar. */
  function ParseDate(s: string): (r: Result<Date, DateError>)
    ensures '-' !in s ==> r == Err(Malformed)
    ensures r.Ok? ==> IsCalendarDay(r.value)
  {
    match IndexOf(s, '-')
    case None => Err(Malformed)
    case Some(i) =>
      var rest := s[i + 1..];
      match IndexOf(rest, '-')
      case None => Err(Malformed)
      case Some(j) => ParseFields(s[..i], rest[..j], rest[j + 1..])
  }

  /** The three fields of a date text, already split at the two '-' separators. */
  function ParseFields(yearText: string, monthText: string, dayText: string): (r: Result<Date, DateError>)
    ensures r.Ok? ==> IsCalendarDay(r.value)
    ensures r.Ok? ==> |monthText| == 2 && |dayText| == 2
  {
    if |monthText| != 2 || |dayText| != 2 then Err(Malformed)
    else match (ParseNat(yearText), ParseNat(monthText), ParseNat(dayText))
      case (Some(y), Some(m), Some(d)) =>
        if !(1 <= m <= 12) then Err(MonthOutOfRange)
        else if !(1 <= d <= DaysInMonth(y, m)) then Err(DayOutOfRange)
        else Ok(Date(y, m, d))
      case _ => Err(Malformed)
  }

  lemma {:induction false} ParseNatRoundTrip(n: nat)
    ensures ParseNat(NatToText(n)) == Some(n)
  {
    if n >= 10 {
      var s := NatToText(n);
      ParseNatRoundTrip(n / 10);
      assert s[..|s| - 1] == NatToText(n / 10);
    }
  }

  /** A decimal text has no '-' in it. */
  lemma {:induction false} DigitsHaveNoDash(s: string)
    requires AllDigits(s)
    ensures '-' !in s
  {
  }

  lemma {:induction false} IndexOfAfterPrefix(a: string, b: string, c: char)
    requires c !in a
    ensures IndexOf(a + [c] + b, c) == Some(|a|)
  {
    if |a| > 0 {
      assert (a + [c] + b)[1..] == a[1..] + [c] + b;
      IndexOfAfterPrefix(a[1..], b, c);
    }
  }

  /** A date text whose year field has no '-' is split at its first two separators. */
  lemma {:induction false} SplitDateText(y: string, t: string)
    requires '-' !in y
    ensures '-' !in t ==> ParseDate(y + "-" + t + "-01") == ParseFields(y, t, "01")
    ensures |t| > 0 && t[0] == '-' ==> ParseDate(y + "-" + t + "-01") == Err(Malformed)
  {
    var s := y + "-" + t + "-01";
    assert s == y + ['-'] + (t + "-01");
    IndexOfAfterPrefix(y, t + "-01", '-');
    var rest := s[|y| + 1..];
    assert rest == t + "-01";
    assert s[..|y|] == y;
    if '-' !in t {
      assert rest == t + ['-'] + "01";
      IndexOfAfterPrefix(t, "01", '-');
      assert rest[..|t|] == t;
      assert rest[|t| + 1..] == "01";
    } else if |t| > 0 && t[0] == '-' {
      assert IndexOf(rest, '-') == Some(0);
    }
  }

  /** The month field the script writes, for a month that is not negative. */
  lemma {:induction false} MonthFieldParses(month: int)
    requires 0 <= month
    ensures var t := ZFill(IntToText(month), 2);
      AllDigits(t) && (|t| == 2 <==> month < 100) && (|t| == 2 ==> ParseNat(t) == Some(month))
  {
    var t := ZFill(IntToText(month), 2);
    ParseNatRoundTrip(month);
    if month < 10 {
      assert t == "0" + NatToText(month);
      assert t[..1] == "0";
    }
  }

  /** The fields written for a group with a month that is not negative parse to the first day of
      that month when it is a calendar month, and fail otherwise. */
  lemma {:induction false} MonthFieldsParse(year: nat, month: int, t: string)
    requires 0 <= month
    requires AllDigits(t) && (|t| == 2 <==> month < 100) && (|t| == 2 ==> ParseNat(t) == Some(month))
    ensures 1 <= month <= 12 ==> ParseFields(NatToText(year), t, "01") == Ok(Date(year, month, 1))
    ensures !(1 <= month <= 12) ==> ParseFields(NatToText(year), t, "01").Err?
  {
    ParseNatRoundTrip(year);
    assert ParseNat("01") == Some(1) by {
      assert "01"[..1] == "0";
    }
  }

  /** The DATE value the script computes for the group (year, month). */
  function MonthStart(year: nat, month: int): (r: Result<Date, DateError>)
    ensures r.Ok? <==> 1 <= month <= 12
    ensures r.Ok? ==> r.value == Date(year, month, 1) && IsMonthStart(r.value)
  {
    ParseDate(DateString(year, month))
  }
}
