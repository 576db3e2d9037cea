/** The read-only public notice board: department totals, the seven-day date
    picker and the first ten upcoming bookings. */
module PublicBoard {
  import opened Wrappers
  import opened Types
  import opened Rooms
  import opened Store
  import opened FloorPlan
  import opened NoticeBoard
  import opened Strings
  import opened Dates

  /** The department totals shown at the top: ground and first floor added up. */
  function DepartmentStats(rooms: seq<Room>, day: DayBookings): (s: Stats)
    ensures s.total == |rooms|
    ensures s.booked == CountBooked(rooms, day)
    ensures 0 <= s.booked <= s.total
    ensures s.available == s.total - s.booked
  {
    var ground := FloorStats(rooms, Ground, day);
    var first := FloorStats(rooms, First, day);
    FloorsPartition(rooms);
    FloorCountsAddUp(rooms, day);
    Stats(ground.total + first.total, ground.booked + first.booked, ground.available + first.available)
  }

  /** Over the catalog the department totals are twelve rooms, and the booked
      count is the number of catalog rooms booked on the day. */
  lemma CatalogDepartmentStats(data: BookingData, date: string)
    requires CurrentBookings(data, date).Keys <= Ids(Catalog)
    ensures DepartmentStats(Catalog, CurrentBookings(data, date)).total == 12
    ensures DepartmentStats(Catalog, CurrentBookings(data, date)) == BookingStats(data, date, Catalog)
  {
    CatalogWellFormed();
    FloorsAgreeWithBookingStats(Catalog, data, date);
  }

  /** `getUpcomingBookings` of the public board: the notice board's listing
      without a floor filter. */
  method PublicUpcomingBookings(data: BookingData, rooms: seq<Room>, today: string)
    returns (list: seq<Upcoming>)
    ensures Sorted(list)
    ensures NoDuplicates(list)
    ensures forall u :: u in list <==>
      && u.date in data && u.roomId in data[u.date]
      && data[u.date][u.roomId] == Details(u.booking) && u.booking.id != ""
      && OnOrAfter(u.date, today)
      && FindRoom(rooms, u.roomId) == Some(u.room)
  {
    list := UpcomingBookings(data, rooms, today, AllFloors);
  }

  /** `upcomingBookings.slice(0, 10)`: the first ten entries, in list order. */
  function Displayed(list: seq<Upcoming>): (shown: seq<Upcoming>)
    ensures |shown| == if |list| < 10 then |list| else 10
    ensures shown == list[..|shown|]
  {
    if |list| <= 10 then list else list[..10]
  }

  /** Taking a prefix of a sorted, duplicate-free list keeps it so. */
  lemma DisplayedKeepsOrder(list: seq<Upcoming>)
    requires Sorted(list) && NoDuplicates(list)
    ensures Sorted(Displayed(list)) && NoDuplicates(Displayed(list))
    ensures forall u :: u in Displayed(list) ==> u in list
  {
  }

  /** `n` consecutive days starting at `start`. */
  function DaysFrom(start: Day, n: nat): (days: seq<Day>)
    requires ValidDay(start)
    ensures |days| == n
    ensures n > 0 ==> days[0] == start
    ensures forall i :: 0 <= i < n ==> ValidDay(days[i])
    decreases n
  {
    if n == 0 then [] else [start] + DaysFrom(NextDay(start), n - 1)
  }

  /** Day `i` of the run is `i` days after the start, in a year at most `i` later. */
  lemma {:induction false} DaysFromConsecutive(start: Day, n: nat)
    requires ValidDay(start)
    ensures forall i :: 0 <= i < n ==> DayNumber(DaysFrom(start, n)[i]) == DayNumber(start) + i
    ensures forall i :: 0 <= i < n ==> start.year <= DaysFrom(start, n)[i].year <= start.year + i
    decreases n
  {
    if n > 0 {
      var next := NextDay(start);
      NextDayIsConsecutive(start);
      DaysFromConsecutive(next, n - 1);
      var days := DaysFrom(start, n);
      assert forall i :: 1 <= i < n ==> days[i] == DaysFrom(next, n - 1)[i - 1];
    }
  }

  /** `generateDateOptions`: today and the six following days as date strings. */
  function DateOptions(today: Day): (options: seq<string>)
    requires ValidDay(today)
    ensures |options| == 7
    ensures options[0] == FormatDay(today)
    ensures forall i :: 0 <= i < 7 ==> options[i] == FormatDay(DaysFrom(today, 7)[i])
  {
    var days := DaysFrom(today, 7);
    seq(7, i requires 0 <= i < 7 => FormatDay(days[i]))
  }

  /** For four-digit years the seven options are strictly increasing store keys
      (so all distinct), the first being today's. */
  lemma DateOptionsIncreasing(today: Day)
    requires ValidDay(today) && 1000 <= today.year <= 9993
    ensures forall i, j :: 0 <= i < j < 7 ==> Less(DateOptions(today)[i], DateOptions(today)[j])
  {
    var days := DaysFrom(today, 7);
    DaysFromConsecutive(today, 7);
    forall i, j | 0 <= i < j < 7
      ensures Less(DateOptions(today)[i], DateOptions(today)[j])
    {
      DayNumberOrder(days[i], days[j]);
      FormatDateOrder(days[i], days[j]);
    }
  }

  /** The caption `formatDateOption` puts on an option. */
  datatype Caption = Today | Tomorrow | OtherDay(day: Day)

  function OptionCaption(d: Day, today: Day): (c: Caption)
    requires ValidDay(today)
    ensures c == Today <==> d == today
    ensures c == Tomorrow <==> d != today && d == NextDay(today)
    ensures c.OtherDay? ==> c.day == d
  {
    if d == today then Today
    else if d == NextDay(today) then Tomorrow
    else OtherDay(d)
  }

  /** The first option reads "Today", the second "Tomorrow", the other five a weekday. */
  lemma DateOptionCaptions(today: Day)
    requires ValidDay(today)
    ensures OptionCaption(DaysFrom(today, 7)[0], today) == Today
    ensures OptionCaption(DaysFrom(today, 7)[1], today) == Tomorrow
    ensures forall i :: 2 <= i < 7 ==> OptionCaption(DaysFrom(today, 7)[i], today).OtherDay?
  {
    var days := DaysFrom(today, 7);
    DaysFromConsecutive(today, 7);
    NextDayIsConsecutive(today);
    forall i | 2 <= i < 7
      ensures OptionCaption(days[i], today).OtherDay?
    {
      DayNumberOrder(days[i], today);
      DayNumberOrder(days[i], NextDay(today));
    }
  }
}
