/**
 * Proleptic Gregorian calendar dates as Python's `datetime` handles them
 * (years 1 to 9999), shifting a date by whole days, and the `%Y-%m-%d`
 * rendering used to build the activity-log filter.
 */
module Calendar {
  import opened Wrappers

  const MinYear := 1
  const MaxYear := 9999

  datatype Date = Date(year: int, month: int, day: int)

  predicate IsLeap(y: int) {
    y % 4 == 0 && (y % 100 != 0 || y % 400 == 0)
  }

  function DaysInMonth(y: int, m: int): int {
    if m == 2 then (if IsLeap(y) then 29 else 28)
    else if m == 4 || m == 6 || m == 9 || m == 11 then 30
    else 31
  }

  /** A date `datetime` can represent. */
  predicate Valid(d: Date) {
    MinYear <= d.year <= MaxYear && 1 <= d.month <= 12 && 1 <= d.day <= DaysInMonth(d.year, d.month)
  }

  /** Calendar order. */
  predicate Before(a: Date, b: Date) {
    a.year < b.year ||
    (a.year == b.year && (a.month < b.month || (a.month == b.month && a.day < b.day)))
  }

  /** The following day; None where `datetime` would overflow. */
  function NextDay(d: Date): (r: Option<Date>)
    requires Valid(d)
    ensures r.None? <==> d == Date(MaxYear, 12, 31)
    ensures r.Some? ==> Valid(r.value) && Before(d, r.value)
  {
    if d.day < DaysInMonth(d.year, d.month) then Some(Date(d.year, d.month, d.day + 1))
    else if d.month < 12 then Some(Date(d.year, d.month + 1, 1))
    else if d.year < MaxYear then Some(Date(d.year + 1, 1, 1))
    else None
  }

  /** The preceding day; None where `datetime` would overflow. */
  function PrevDay(d: Date): (r: Option<Date>)
    requires Valid(d)
    ensures r.None? <==> d == Date(MinYear, 1, 1)
    ensures r.Some? ==> Valid(r.value) && Before(r.value, d)
  {
    if d.day > 1 then Some(Date(d.year, d.month, d.day - 1))
    else if d.month > 1 then Some(Date(d.year, d.month - 1, DaysInMonth(d.year, d.month - 1)))
    else if d.year > MinYear then Some(Date(d.year - 1, 12, 31))
    else None
  }

  /** NextDay is the immediate successor: no valid date lies strictly between. */
  lemma NextDayIsSuccessor(d: Date, e: Date)
    requires Valid(d) && Valid(e) && Before(d, e)
    ensures NextDay(d).Some?
    ensures NextDay(d).value == e || Before(NextDay(d).value, e)
  {
  }

  lemma NextThenPrev(d: Date)
    requires Valid(d) && NextDay(d).Some?
    ensures PrevDay(NextDay(d).value) == Some(d)
  {
  }

  lemma PrevThenNext(d: Date)
    requires Valid(d) && PrevDay(d).Some?
    ensures NextDay(PrevDay(d).value) == Some(d)
  {
  }

  /**
   * `d + timedelta(days=n)`: n steps forward (or -n steps back); None when
   * a step leaves the representable range (Python raises OverflowError).
   */
  function Shift(d: Date, n: int): (r: Option<Date>)
    requires Valid(d)
    ensures r.Some? ==> Valid(r.value)
    ensures r.Some? && n > 0 ==> Before(d, r.value)
    ensures r.Some? && n < 0 ==> Before(r.value, d)
    decreases if n < 0 then -n else n
  {
    if n == 0 then Some(d)
    else if n > 0 then
      match NextDay(d)
      case None => None
      case Some(e) => Shift(e, n - 1)
    else
      match PrevDay(d)
      case None => None
      case Some(e) => Shift(e, n + 1)
  }

  /**
   * Shifting forward by n fails exactly when 9999-12-31 is reached in fewer
   * than n steps: the condition under which Python raises OverflowError.
   */
  lemma {:induction false} ShiftForwardOverflow(d: Date, n: nat)
    requires Valid(d)
    ensures Shift(d, n).None? <==> exists k: int :: 0 <= k < n && Shift(d, k) == Some(Date(MaxYear, 12, 31))
    decreases n
  {
    var last := Date(MaxYear, 12, 31);
    if n > 0 {
      if NextDay(d).None? {
        assert Shift(d, n).None? && Shift(d, 0) == Some(last);
        assert exists k: int :: 0 <= k < n && Shift(d, k) == Some(Date(MaxYear, 12, 31));
      } else {
        var d1 := NextDay(d).value;
        assert Shift(d, n) == Shift(d1, n - 1) && Shift(d, 0) != Some(last);
        ShiftForwardOverflow(d1, n - 1);
        if Shift(d, n).None? {
          var k: int :| 0 <= k < n - 1 && Shift(d1, k) == Some(last);
          assert 0 <= k + 1 < n && Shift(d, k + 1) == Some(last);
          assert exists j: int :: 0 <= j < n && Shift(d, j) == Some(Date(MaxYear, 12, 31));
        } else {
          forall k: int | 0 <= k < n ensures Shift(d, k) != Some(last) {
            if k > 0 {
              assert Shift(d, k) == Shift(d1, k - 1);
              assert Shift(d1, k - 1) != Some(last);
            }
          }
        }
      }
    }
  }

  /**
   * Shifting back by n fails exactly when 0001-01-01 is reached in fewer
   * than n steps back.
   */
  lemma {:induction false} ShiftBackwardOverflow(d: Date, n: nat)
    requires Valid(d)
    ensures Shift(d, -(n as int)).None? <==> exists k: int :: -(n as int) < k <= 0 && Shift(d, k) == Some(Date(MinYear, 1, 1))
    decreases n
  {
    var first := Date(MinYear, 1, 1);
    if n > 0 {
      if PrevDay(d).None? {
        assert Shift(d, -(n as int)).None? && Shift(d, 0) == Some(first);
        assert exists k: int :: -(n as int) < k <= 0 && Shift(d, k) == Some(Date(MinYear, 1, 1));
      } else {
        var d1 := PrevDay(d).value;
        assert Shift(d, -(n as int)) == Shift(d1, -(n as int) + 1) && Shift(d, 0) != Some(first);
        ShiftBackwardOverflow(d1, n - 1);
        if Shift(d, -(n as int)).None? {
          var k: int :| -(n as int - 1) < k <= 0 && Shift(d1, k) == Some(first);
          assert -(n as int) < k - 1 <= 0 && Shift(d, k - 1) == Some(first);
          assert exists j: int :: -(n as int) < j <= 0 && Shift(d, j) == Some(Date(MinYear, 1, 1));
        } else {
          forall k: int | -(n as int) < k <= 0 ensures Shift(d, k) != Some(first) {
            if k < 0 {
              assert Shift(d, k) == Shift(d1, k + 1);
              assert Shift(d1, k + 1) != Some(first);
            }
          }
        }
      }
    }
  }

  /** Shifting by a and then by b is shifting by a + b. */
  lemma {:induction false} ShiftAdd(d: Date, a: int, b: int)
    requires Valid(d) && Shift(d, a).Some? && Shift(Shift(d, a).value, b).Some?
    ensures Shift(d, a + b) == Shift(Shift(d, a).value, b)
    decreases if a < 0 then -a else a
  {
    if a > 0 {
      var d1 := NextDay(d).value;
      ShiftAdd(d1, a - 1, b);
      if a + b <= 0 {
        NextThenPrev(d);
      }
    } else if a < 0 {
      var d1 := PrevDay(d).value;
      ShiftAdd(d1, a + 1, b);
      if a + b >= 0 {
        PrevThenNext(d);
      }
    }
  }

  /** Shifting back by n undoes a shift by n. */
  lemma {:induction false} ShiftInverse(d: Date, n: int)
    requires Valid(d) && Shift(d, n).Some?
    ensures Shift(Shift(d, n).value, -n) == Some(d)
    decreases if n < 0 then -n else n
  {
    var e := Shift(d, n).value;
    if n > 0 {
      var d1 := NextDay(d).value;
      ShiftInverse(d1, n - 1);
      NextThenPrev(d);
      assert Shift(d1, -1) == Some(d);
      ShiftAdd(e, -(n - 1), -1);
    } else if n < 0 {
      var d1 := PrevDay(d).value;
      ShiftInverse(d1, n + 1);
      PrevThenNext(d);
      assert Shift(d1, 1) == Some(d);
      ShiftAdd(e, -(n + 1), 1);
    }
  }

  // ---------------------------------------------------------------------
  // `strftime("%Y-%m-%d")` and its inverse

  function Pow10(k: nat): (p: nat)
    ensures p >= 1
  {
    if k == 0 then 1 else 10 * Pow10(k - 1)
  }

  predicate IsDigit(c: char) {
    '0' <= c <= '9'
  }

  predicate AllDigits(s: string) {
    forall i :: 0 <= i < |s| ==> IsDigit(s[i])
  }

  /** n written in exactly `width` decimal digits, zero-padded on the left. */
  function Pad(n: nat, width: nat): (s: string)
    ensures |s| == width && AllDigits(s)
  {
    if width == 0 then "" else Pad(n / 10, width - 1) + [('0' as int + n % 10) as char]
  }

  /** The value of a string of decimal digits. */
  function DigitsValue(s: string): (v: nat)
    requires AllDigits(s)
    ensures v < Pow10(|s|)
  {
    if s == [] then 0
    else DigitsValue(s[..|s| - 1]) * 10 + (s[|s| - 1] as int - '0' as int)
  }

  lemma {:induction false} PadRoundTrip(n: nat, width: nat)
    requires n < Pow10(width)
    ensures DigitsValue(Pad(n, width)) == n
  {
    if width > 0 {
      var s := Pad(n, width);
      assert s[..width - 1] == Pad(n / 10, width - 1);
      assert n / 10 < Pow10(width - 1);
      PadRoundTrip(n / 10, width - 1);
    }
  }

  lemma {:induction false} DigitsRoundTrip(s: string)
    requires AllDigits(s)
    ensures Pad(DigitsValue(s), |s|) == s
  {
    if s != [] {
      var init := s[..|s| - 1];
      var v := DigitsValue(s);
      assert v / 10 == DigitsValue(init);
      DigitsRoundTrip(init);
      assert s == init + [s[|s| - 1]];
    }
  }

  /** The `%Y-%m-%d` text of a date. */
  function FormatDate(d: Date): (s: string)
    requires Valid(d)
    ensures |s| == 10 && s[4] == '-' && s[7] == '-'
  {
    Pad(d.year, 4) + "-" + Pad(d.month, 2) + "-" + Pad(d.day, 2)
  }

  /** Reads `YYYY-MM-DD` back; None for anything else or for a date that does not exist. */
  function ParseDate(s: string): (r: Option<Date>)
    ensures r.Some? ==> Valid(r.value)
  {
    if |s| == 10 && s[4] == '-' && s[7] == '-'
       && AllDigits(s[..4]) && AllDigits(s[5..7]) && AllDigits(s[8..])
    then
      var d := Date(DigitsValue(s[..4]), DigitsValue(s[5..7]), DigitsValue(s[8..]));
      if Valid(d) then Some(d) else None
    else None
  }

  /** Every formatted date reads back as itself. */
  lemma FormatThenParse(d: Date)
    requires Valid(d)
    ensures ParseDate(FormatDate(d)) == Some(d)
  {
    var s := FormatDate(d);
    assert s[..4] == Pad(d.year, 4);
    assert s[5..7] == Pad(d.month, 2);
    assert s[8..] == Pad(d.day, 2);
    PadRoundTrip(d.year, 4);
    PadRoundTrip(d.month, 2);
    PadRoundTrip(d.day, 2);
  }

  /** Every text that reads as a date is that date's formatting: the format is canonical. */
  lemma ParseThenFormat(s: string)
    requires ParseDate(s).Some?
    ensures FormatDate(ParseDate(s).value) == s
  {
    var d := ParseDate(s).value;
    assert d == Date(DigitsValue(s[..4]), DigitsValue(s[5..7]), DigitsValue(s[8..]));
    assert Pad(d.year, 4) == s[..4] by { DigitsRoundTrip(s[..4]); }
    assert Pad(d.month, 2) == s[5..7] by { DigitsRoundTrip(s[5..7]); }
    assert Pad(d.day, 2) == s[8..] by { DigitsRoundTrip(s[8..]); }
    assert s == s[..4] + "-" + s[5..7] + "-" + s[8..];
  }

  /** Different dates are formatted differently. */
  lemma FormatInjective(d: Date, e: Date)
    requires Valid(d) && Valid(e) && FormatDate(d) == FormatDate(e)
    ensures d == e
  {
    FormatThenParse(d);
    FormatThenParse(e);
  }
}
