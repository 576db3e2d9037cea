/** The month calendar: month navigation, the day grid and the click guard
    that keeps past days from being selected. */
module Calendar {
  import opened Wrappers
  import opened Strings
  import opened Dates

  /** The month on display (`currentMonth` reduced to year and 0-based month). */
  datatype Month = Month(year: int, month: int)

  predicate ValidMonth(m: Month) {
    1 <= m.year && 0 <= m.month < 12
  }

  /** Months counted continuously across years. */
  function MonthIndex(m: Month): int {
    12 * m.year + m.month
  }

  /** `navigateMonth('prev')`: one month back, wrapping into December of the previous year. */
  function PrevMonth(m: Month): (r: Month)
    requires 0 <= m.month < 12
    ensures 0 <= r.month < 12
    ensures MonthIndex(r) == MonthIndex(m) - 1
  {
    if m.month == 0 then Month(m.year - 1, 11) else Month(m.year, m.month - 1)
  }

  /** `navigateMonth('next')`: one month forward, wrapping into January of the next year. */
  function NextMonth(m: Month): (r: Month)
    requires 0 <= m.month < 12
    ensures 0 <= r.month < 12
    ensures MonthIndex(r) == MonthIndex(m) + 1
  {
    if m.month == 11 then Month(m.year + 1, 0) else Month(m.year, m.month + 1)
  }

  /** Going back and forth returns to the same month. */
  lemma NavigateRoundTrip(m: Month)
    requires 0 <= m.month < 12
    ensures NextMonth(PrevMonth(m)) == m
    ensures PrevMonth(NextMonth(m)) == m
  {
  }

  /** One cell of the grid: a leading blank or a day button. */
  datatype Cell =
    | Blank
    | DayButton(day: int, date: string, isSelected: bool, isToday: bool, isPast: bool)

  /** `isPastDate`: the day is before today's midnight. */
  predicate IsPast(d: Day, today: Day) {
    Before(d, today)
  }

  function DayCell(m: Month, day: int, selected: Option<string>, today: Day): (c: Cell)
    requires ValidDay(Day(m.year, m.month, day))
  {
    var date := FormatDate(m.year, m.month, day);
    DayButton(day, date, selected == Some(date), today == Day(m.year, m.month, day),
              IsPast(Day(m.year, m.month, day), today))
  }

  /** The day buttons of a month, day 1 first. */
  function DayButtons(m: Month, selected: Option<string>, today: Day): (cells: seq<Cell>)
    requires ValidMonth(m)
    ensures |cells| == DaysInMonth(m.year, m.month)
    ensures forall i :: 0 <= i < |cells| ==> cells[i] == DayCell(m, i + 1, selected, today)
  {
    var days := DaysInMonth(m.year, m.month);
    seq(days, i requires 0 <= i < days => DayCell(m, i + 1, selected, today))
  }

  /** `lead` blanks in front of `buttons`. */
  function PadFront(lead: nat, buttons: seq<Cell>): (cells: seq<Cell>)
    ensures |cells| == lead + |buttons|
    ensures forall i :: 0 <= i < lead ==> cells[i] == Blank
    ensures forall i :: lead <= i < |cells| ==> cells[i] == buttons[i - lead]
  {
    seq(lead, _ => Blank) + buttons
  }

  /** `renderCalendarDays`: as many blanks as the weekday of the 1st, then
      one button per day of the month in order. */
  function CalendarGrid(m: Month, selected: Option<string>, today: Day): (cells: seq<Cell>)
    requires ValidMonth(m)
    ensures |cells| == Weekday(Day(m.year, m.month, 1)) + DaysInMonth(m.year, m.month)
    ensures forall i :: 0 <= i < Weekday(Day(m.year, m.month, 1)) ==> cells[i] == Blank
    ensures forall i :: Weekday(Day(m.year, m.month, 1)) <= i < |cells| ==>
      cells[i] == DayCell(m, i - Weekday(Day(m.year, m.month, 1)) + 1, selected, today)
  {
    PadFront(Weekday(Day(m.year, m.month, 1)), DayButtons(m, selected, today))
  }

  /** Every button carries its day's date string, is selected exactly when that
      string is the selected date, and is past exactly when the day precedes today. */
  lemma GridButtons(m: Month, selected: Option<string>, today: Day, i: int)
    requires ValidMonth(m)
    requires 0 <= i < |CalendarGrid(m, selected, today)|
    requires CalendarGrid(m, selected, today)[i].DayButton?
    ensures var c := CalendarGrid(m, selected, today)[i];
      && ValidDay(Day(m.year, m.month, c.day))
      && c.day == i - Weekday(Day(m.year, m.month, 1)) + 1
      && c.date == FormatDate(m.year, m.month, c.day)
      && (c.isSelected <==> selected == Some(c.date))
      && (c.isToday <==> today == Day(m.year, m.month, c.day))
      && (c.isPast <==> Before(Day(m.year, m.month, c.day), today))
  {
  }

  /** For four-digit years at most one day of the grid is marked selected. */
  lemma AtMostOneSelected(m: Month, selected: Option<string>, today: Day, i: int, j: int)
    requires ValidMonth(m) && 1000 <= m.year <= 9999
    requires 0 <= i < j < |CalendarGrid(m, selected, today)|
    requires CalendarGrid(m, selected, today)[i].DayButton? && CalendarGrid(m, selected, today)[j].DayButton?
    ensures !(CalendarGrid(m, selected, today)[i].isSelected && CalendarGrid(m, selected, today)[j].isSelected)
  {
    var cells := CalendarGrid(m, selected, today);
    GridButtons(m, selected, today, i);
    GridButtons(m, selected, today, j);
    var a, b := Day(m.year, m.month, cells[i].day), Day(m.year, m.month, cells[j].day);
    if cells[i].isSelected && cells[j].isSelected {
      assert FormatDay(a) == FormatDay(b);
      FormatDateInjective(a, b);
      assert false;
    }
  }

  /** `handleDateClick`: a past day does nothing, any other day reports its date string. */
  function DateClick(m: Month, day: int, today: Day): (r: Option<string>)
    requires ValidDay(Day(m.year, m.month, day))
    ensures r.Some? <==> !Before(Day(m.year, m.month, day), today)
    ensures r.Some? ==> r.value == FormatDate(m.year, m.month, day)
  {
    if IsPast(Day(m.year, m.month, day), today) then None else Some(FormatDate(m.year, m.month, day))
  }

  /** A date the calendar lets through is not before today as a store key
      either, so it passes the notice board's "today or later" test. */
  lemma ClickedDateNotBeforeToday(m: Month, day: int, today: Day)
    requires ValidDay(Day(m.year, m.month, day)) && ValidDay(today)
    requires 1000 <= m.year <= 9999 && 1000 <= today.year <= 9999
    requires DateClick(m, day, today).Some?
    ensures !Less(DateClick(m, day, today).value, FormatDay(today))
  {
    FormatDateOrder(Day(m.year, m.month, day), today);
  }
}
