/**
 * The server-side filter of the first activity-log request: a window that
 * starts `days` days before today and ends two days after today, rendered
 * as an OData `$filter` expression.
 */
module Query {
  import opened Wrappers
  import opened Calendar

  const Endpoint := "https://management.azure.com/providers/Microsoft.Insights/eventtypes/management/values"
  const ApiVersion := "2015-04-01"

  const StartPrefix := "eventTimestamp ge "
  const EndPrefix := " and eventTimestamp le "
  const ChannelClause := " and eventChannels eq 'Admin,Operation'"

  datatype Window = Window(start: Date, end: Date)

  /**
   * end := today + 2 days, then start := today - days; None when either
   * computation leaves the range of `datetime` (OverflowError).
   */
  function TimeWindow(today: Date, days: int): (w: Option<Window>)
    requires Valid(today)
    ensures w.Some? <==> Shift(today, 2).Some? && Shift(today, -days).Some?
    ensures w.Some? ==> Valid(w.value.start) && Valid(w.value.end)
  {
    match Shift(today, 2)
    case None => None
    case Some(end) =>
      match Shift(today, -days)
      case None => None
      case Some(start) => Some(Window(start, end))
  }

  /** The window ends exactly days + 2 days after it starts, and today is days after the start. */
  lemma WindowSpan(today: Date, days: int)
    requires Valid(today) && TimeWindow(today, days).Some?
    ensures Shift(TimeWindow(today, days).value.start, days) == Some(today)
    ensures Shift(TimeWindow(today, days).value.start, days + 2) == Some(TimeWindow(today, days).value.end)
  {
    var w := TimeWindow(today, days).value;
    ShiftInverse(today, -days);
    ShiftAdd(w.start, days, 2);
  }

  /** The window is ordered, start before end, exactly when DAYS is above -2; at -2 it is a single day. */
  lemma WindowOrdered(today: Date, days: int)
    requires Valid(today) && TimeWindow(today, days).Some?
    ensures Before(TimeWindow(today, days).value.start, TimeWindow(today, days).value.end) <==> days > -2
  {
    WindowSpan(today, days);
  }

  /** The `$filter` expression: both bounds as `%Y-%m-%d`, and the Admin and Operation channels. */
  function Filter(w: Window): (f: string)
    requires Valid(w.start) && Valid(w.end)
    ensures |f| == 100
    ensures f[..18] == StartPrefix && f[28..51] == EndPrefix && f[61..] == ChannelClause
  {
    StartPrefix + FormatDate(w.start) + EndPrefix + FormatDate(w.end) + ChannelClause
  }

  /** The filter of the first request, or None when the window overflows. */
  function BuildFilter(today: Date, days: int): (f: Option<string>)
    requires Valid(today)
    ensures f.Some? <==> TimeWindow(today, days).Some?
  {
    match TimeWindow(today, days)
    case None => None
    case Some(w) => Some(Filter(w))
  }

  /**
   * The filter is 100 characters with the two dates at fixed places,
   * and they read back as the window's bounds; so the filter determines the window.
   */
  lemma FilterCarriesWindow(w: Window)
    requires Valid(w.start) && Valid(w.end)
    ensures |Filter(w)| == 100
    ensures Filter(w)[..18] == StartPrefix
    ensures ParseDate(Filter(w)[18..28]) == Some(w.start)
    ensures Filter(w)[28..51] == EndPrefix
    ensures ParseDate(Filter(w)[51..61]) == Some(w.end)
    ensures Filter(w)[61..] == ChannelClause
  {
    var f := Filter(w);
    assert f[18..28] == FormatDate(w.start);
    assert f[51..61] == FormatDate(w.end);
    FormatThenParse(w.start);
    FormatThenParse(w.end);
  }

  lemma FilterInjective(w1: Window, w2: Window)
    requires Valid(w1.start) && Valid(w1.end) && Valid(w2.start) && Valid(w2.end)
    requires Filter(w1) == Filter(w2)
    ensures w1 == w2
  {
    FilterCarriesWindow(w1);
    FilterCarriesWindow(w2);
  }

  /** The filter `main` sends carries today − DAYS as its start and today + 2 days as its end. */
  lemma BuildFilterDates(today: Date, days: int)
    requires Valid(today) && BuildFilter(today, days).Some?
    ensures |BuildFilter(today, days).value| == 100
    ensures ParseDate(BuildFilter(today, days).value[18..28]) == Shift(today, -days)
    ensures ParseDate(BuildFilter(today, days).value[51..61]) == Shift(today, 2)
  {
    FilterCarriesWindow(TimeWindow(today, days).value);
  }

  /** One day back from 2024-01-10 and two days ahead. */
  lemma FilterExample()
    ensures BuildFilter(Date(2024, 1, 10), 1) ==
      Some(StartPrefix + "2024-01-09" + EndPrefix + "2024-01-12" + ChannelClause)
  {
    var today := Date(2024, 1, 10);
    var w := Window(Date(2024, 1, 9), Date(2024, 1, 12));
    assert TimeWindow(today, 1) == Some(w) by {
      assert Shift(today, 2) == Some(Date(2024, 1, 12));
      assert Shift(today, -1) == Some(Date(2024, 1, 9));
    }
    assert FormatDate(w.start) == "2024-01-09" by {
      assert Pad(2024, 4) == "2024" && Pad(1, 2) == "01" && Pad(9, 2) == "09";
    }
    assert FormatDate(w.end) == "2024-01-12" by {
      assert Pad(2024, 4) == "2024" && Pad(1, 2) == "01" && Pad(12, 2) == "12";
    }
    assert Filter(w) == StartPrefix + "2024-01-09" + EndPrefix + "2024-01-12" + ChannelClause;
    assert BuildFilter(today, 1) == Some(Filter(w));
  }
}
