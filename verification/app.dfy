/** The top-level screen switch: login, admin calendar, booking screen for a
    date, and the public notice board, driven by the handlers the screens call. */
module App {
  import opened Wrappers
  import Dates
  import Calendar

  datatype View = LoginView | CalendarView | BookingView | NoticeView

  /** `currentView`, `selectedDate` and `isAuthenticated`. */
  datatype AppState = AppState(view: View, selectedDate: Option<string>, authenticated: bool)

  /** The state on start-up: login screen, nobody signed in, no date chosen. */
  const Initial := AppState(LoginView, None, false)

  /** The handlers the screens are given. */
  datatype Event =
    | Login                  // handleLogin
    | ViewNoticeBoard        // handleViewNoticeBoard
    | SelectDate(date: string) // handleDateSelect
    | BackToCalendar         // handleBackToCalendar
    | BackToLogin            // handleBackToLogin

  /** What each handler does to the state, whichever screen is showing. */
  function Step(s: AppState, e: Event): (r: AppState)
    ensures e.Login? ==> r.view == CalendarView && r.authenticated
    ensures e.BackToLogin? ==> r.view == LoginView && !r.authenticated
    ensures e.SelectDate? ==> r.view == BookingView && r.selectedDate == Some(e.date)
    ensures e.BackToCalendar? ==> r.view == CalendarView
    ensures e.ViewNoticeBoard? ==> r.view == NoticeView
    ensures !e.SelectDate? ==> r.selectedDate == s.selectedDate
    ensures !e.Login? && !e.BackToLogin? ==> r.authenticated == s.authenticated
  {
    match e
    case Login => s.(authenticated := true, view := CalendarView)
    case ViewNoticeBoard => s.(view := NoticeView)
    case SelectDate(date) => s.(selectedDate := Some(date), view := BookingView)
    case BackToCalendar => s.(view := CalendarView)
    case BackToLogin => s.(view := LoginView, authenticated := false)
  }

  /** What is on screen: the booking screen needs a non-empty selected date,
      otherwise nothing is rendered. */
  datatype Screen = LoginScreen | NoticeScreen | CalendarScreen | BookingScreen(date: string) | NothingShown

  function Render(s: AppState): (sc: Screen)
    ensures sc == NothingShown <==> s.view == BookingView && (s.selectedDate.None? || s.selectedDate.value == "")
    ensures sc.BookingScreen? ==> s.view == BookingView && s.selectedDate == Some(sc.date)
  {
    match s.view
    case LoginView => LoginScreen
    case NoticeView => NoticeScreen
    case CalendarView => CalendarScreen
    case BookingView =>
      if s.selectedDate.Some? && s.selectedDate.value != "" then BookingScreen(s.selectedDate.value)
      else NothingShown
  }

  /** The handlers the rendered screen can call: the login screen offers login
      and the notice board, the notice board and the calendar offer a way
      back to login, the calendar reports clicked dates (which are never
      empty strings), and the booking screen goes back to the calendar. */
  predicate Enabled(s: AppState, e: Event) {
    match Render(s)
    case LoginScreen => e.Login? || e.ViewNoticeBoard?
    case NoticeScreen => e.BackToLogin?
    case CalendarScreen => e.BackToLogin? || (e.SelectDate? && e.date != "")
    case BookingScreen(_) => e.BackToCalendar?
    case NothingShown => false
  }

  /** Every date the calendar reports is one it can hand to the app. */
  lemma CalendarDatesEnabled(s: AppState, m: Calendar.Month, day: int, today: Dates.Day)
    requires s.view == CalendarView
    requires Dates.ValidDay(Dates.Day(m.year, m.month, day))
    requires Calendar.DateClick(m, day, today).Some?
    ensures Enabled(s, SelectDate(Calendar.DateClick(m, day, today).value))
  {
  }

  /** A sequence of handler calls, each offered by the screen showing at the time. */
  predicate Trace(s: AppState, events: seq<Event>)
    decreases |events|
  {
    |events| == 0 || (Enabled(s, events[0]) && Trace(Step(s, events[0]), events[1..]))
  }

  function Run(s: AppState, events: seq<Event>): AppState
    decreases |events|
  {
    if |events| == 0 then s else Run(Step(s, events[0]), events[1..])
  }

  /** Admin screens are shown only to a signed-in user, and the booking view
      always has a non-empty date. */
  predicate Invariant(s: AppState) {
    && (s.view == CalendarView || s.view == BookingView ==> s.authenticated)
    && (s.view == BookingView ==> s.selectedDate.Some? && s.selectedDate.value != "")
  }

  lemma StepKeepsInvariant(s: AppState, e: Event)
    requires Invariant(s) && Enabled(s, e)
    ensures Invariant(Step(s, e))
  {
  }

  /** Along any trace from a good state the invariant holds at the end. */
  lemma {:induction false} TraceKeepsInvariant(s: AppState, events: seq<Event>)
    requires Invariant(s) && Trace(s, events)
    ensures Invariant(Run(s, events))
    decreases |events|
  {
    if |events| > 0 {
      StepKeepsInvariant(s, events[0]);
      TraceKeepsInvariant(Step(s, events[0]), events[1..]);
    }
  }

  /** Every reachable state keeps the invariant and renders a screen. */
  lemma Reachable(events: seq<Event>)
    requires Trace(Initial, events)
    ensures Invariant(Run(Initial, events))
    ensures Render(Run(Initial, events)) != NothingShown
  {
    TraceKeepsInvariant(Initial, events);
  }

  /** The handlers on their own do not protect the admin screens: calling the
      date handler from the start shows the booking view to nobody signed in.
      The protection comes from which screen offers which handler. */
  lemma HandlersAloneDoNotGuard()
    ensures Step(Initial, SelectDate("2025-01-01")).view == BookingView
    ensures !Step(Initial, SelectDate("2025-01-01")).authenticated
    ensures !Enabled(Initial, SelectDate("2025-01-01"))
  {
  }

  /** The public notice board is one click from the start, without signing in. */
  lemma NoticeWithoutLogin()
    ensures Trace(Initial, [ViewNoticeBoard])
    ensures Run(Initial, [ViewNoticeBoard]) == AppState(NoticeView, None, false)
  {
    assert [ViewNoticeBoard][1..] == [];
  }
}
