/** The notice board's listing of upcoming bookings: the entries on or after
    today that carry details and name a catalog room, optionally restricted
    to one floor, sorted by date and start time, then grouped by date. */
module NoticeBoard {
  import opened Wrappers
  import opened Types
  import opened Rooms
  import opened Strings
  import opened Store

  /** One line of the upcoming-bookings listing. */
  datatype Upcoming = Upcoming(date: string, roomId: string, booking: BookingDetails, room: Room)

  /** The floor selector of the notice board: `'all'` or one floor. */
  datatype FloorFilter = AllFloors | OnlyFloor(floor: Floor)

  predicate PassesFloor(filter: FloorFilter, room: Room) {
    filter.AllFloors? || room.floor == filter.floor
  }

  /** `new Date(date) >= today` with today truncated to midnight. Date keys are
      `YYYY-MM-DD` strings, whose string order is the calendar order
      (see `Dates.FormatDateOrder`). */
  predicate OnOrAfter(date: string, today: string) {
    !Less(date, today)
  }

  /** The entry is one the two nested `forEach` loops push: its date is not
      before today, its room is in the catalog, its value is a detail object
      with a non-empty id, and its room passes the floor filter. */
  predicate Listed(data: BookingData, rooms: seq<Room>, today: string, filter: FloorFilter, u: Upcoming) {
    && u.date in data
    && OnOrAfter(u.date, today)
    && u.roomId in data[u.date]
    && data[u.date][u.roomId] == Details(u.booking)
    && u.booking.id != ""
    && FindRoom(rooms, u.roomId) == Some(u.room)
    && PassesFloor(filter, u.room)
  }

  /** The sort comparator: earlier date first, then earlier start time. */
  predicate InOrder(a: Upcoming, b: Upcoming) {
    Less(a.date, b.date) || (a.date == b.date && LessEq(a.booking.startTime, b.booking.startTime))
  }

  predicate Sorted(list: seq<Upcoming>) {
    forall i, j :: 0 <= i < j < |list| ==> InOrder(list[i], list[j])
  }

  predicate NoDuplicates(list: seq<Upcoming>) {
    forall i, j :: 0 <= i < j < |list| ==> list[i] != list[j]
  }

  lemma InOrderTotal(a: Upcoming, b: Upcoming)
    ensures InOrder(a, b) || InOrder(b, a)
  {
    if a.date != b.date {
      LessTotal(a.date, b.date);
    } else if a.booking.startTime != b.booking.startTime {
      LessTotal(a.booking.startTime, b.booking.startTime);
    }
  }

  lemma InOrderTransitive(a: Upcoming, b: Upcoming, c: Upcoming)
    requires InOrder(a, b) && InOrder(b, c)
    ensures InOrder(a, c)
  {
    if Less(a.date, b.date) && Less(b.date, c.date) {
      LessTransitive(a.date, b.date, c.date);
    } else if a.date == b.date == c.date {
      if Less(a.booking.startTime, b.booking.startTime) && Less(b.booking.startTime, c.booking.startTime) {
        LessTransitive(a.booking.startTime, b.booking.startTime, c.booking.startTime);
      }
    }
  }

  /** Place an entry into a sorted list after every entry that must precede it. */
  function Insert(list: seq<Upcoming>, u: Upcoming): (r: seq<Upcoming>)
    ensures multiset(r) == multiset(list) + multiset{u}
    ensures forall x :: x in r <==> x in list || x == u
    ensures |r| == |list| + 1
  {
    if list == [] then [u]
    else if InOrder(u, list[0]) then [u] + list
    else
      assert list == [list[0]] + list[1..];
      [list[0]] + Insert(list[1..], u)
  }

  lemma {:induction false} InsertSorted(list: seq<Upcoming>, u: Upcoming)
    requires Sorted(list)
    ensures Sorted(Insert(list, u))
    decreases |list|
  {
    if list != [] {
      if InOrder(u, list[0]) {
        forall y | y in list
          ensures InOrder(u, y)
        {
          var k :| 0 <= k < |list| && list[k] == y;
          if k > 0 {
            InOrderTransitive(u, list[0], y);
          }
        }
        SortedCons(u, list);
      } else {
        InOrderTotal(u, list[0]);
        SortedTail(list);
        InsertSorted(list[1..], u);
        var rest := Insert(list[1..], u);
        forall y | y in rest
          ensures InOrder(list[0], y)
        {
          if y != u {
            var k :| 0 <= k < |list[1..]| && list[1..][k] == y;
            assert list[k + 1] == y;
          }
        }
        SortedCons(list[0], rest);
      }
    }
  }

  lemma SortedTail(list: seq<Upcoming>)
    requires Sorted(list) && list != []
    ensures Sorted(list[1..])
  {
    forall i, j | 0 <= i < j < |list[1..]|
      ensures InOrder(list[1..][i], list[1..][j])
    {
      assert list[1..][i] == list[i + 1] && list[1..][j] == list[j + 1];
    }
  }

  /** An entry that may precede every entry of a sorted list can head it. */
  lemma SortedCons(x: Upcoming, rest: seq<Upcoming>)
    requires Sorted(rest)
    requires forall y :: y in rest ==> InOrder(x, y)
    ensures Sorted([x] + rest)
  {
    var r := [x] + rest;
    forall i, j | 0 <= i < j < |r|
      ensures InOrder(r[i], r[j])
    {
      assert r[j] == rest[j - 1];
      if i > 0 {
        assert r[i] == rest[i - 1];
      }
    }
  }

  /** An entry not in a duplicate-free list can head it. */
  lemma NoDuplicatesCons(x: Upcoming, rest: seq<Upcoming>)
    requires NoDuplicates(rest) && x !in rest
    ensures NoDuplicates([x] + rest)
  {
    var r := [x] + rest;
    forall i, j | 0 <= i < j < |r|
      ensures r[i] != r[j]
    {
      assert r[j] == rest[j - 1];
      if i > 0 {
        assert r[i] == rest[i - 1];
      }
    }
  }

  lemma {:induction false} InsertNoDuplicates(list: seq<Upcoming>, u: Upcoming)
    requires NoDuplicates(list) && u !in list
    ensures NoDuplicates(Insert(list, u))
    decreases |list|
  {
    if list == [] || InOrder(u, list[0]) {
      NoDuplicatesCons(u, list);
    } else {
      NoDuplicatesTail(list);
      InsertNoDuplicates(list[1..], u);
      assert list[0] !in list[1..];
      NoDuplicatesCons(list[0], Insert(list[1..], u));
    }
  }

  lemma NoDuplicatesTail(list: seq<Upcoming>)
    requires NoDuplicates(list) && list != []
    ensures NoDuplicates(list[1..]) && list[0] !in list[1..]
  {
    forall i, j | 0 <= i < j < |list[1..]|
      ensures list[1..][i] != list[1..][j]
    {
      assert list[1..][i] == list[i + 1] && list[1..][j] == list[j + 1];
    }
    forall k | 0 <= k < |list[1..]|
      ensures list[1..][k] != list[0]
    {
      assert list[1..][k] == list[k + 1];
    }
  }

  /** `getUpcomingBookings`: every listed entry exactly once, sorted by
      (date, start time). The store is a map without an iteration order, so
      entries with equal date and start time may come in either order. */
  method UpcomingBookings(data: BookingData, rooms: seq<Room>, today: string, filter: FloorFilter)
    returns (list: seq<Upcoming>)
    ensures Sorted(list)
    ensures NoDuplicates(list)
    ensures forall u :: u in list ==> Listed(data, rooms, today, filter, u)
    ensures forall u :: Listed(data, rooms, today, filter, u) ==> u in list
  {
    list := [];
    var dates := data.Keys;
    while dates != {}
      invariant dates <= data.Keys
      invariant Sorted(list) && NoDuplicates(list)
      invariant forall u :: u in list ==> Listed(data, rooms, today, filter, u) && u.date !in dates
      invariant forall u :: Listed(data, rooms, today, filter, u) && u.date !in dates ==> u in list
      decreases dates
    {
      var date :| date in dates;
      if OnOrAfter(date, today) {
        var day := data[date];
        var ids := day.Keys;
        while ids != {}
          invariant ids <= day.Keys
          invariant Sorted(list) && NoDuplicates(list)
          invariant forall u :: u in list ==>
            (Listed(data, rooms, today, filter, u)
             && (u.date !in dates || (u.date == date && u.roomId !in ids)))
          invariant forall u ::
            (Listed(data, rooms, today, filter, u)
             && (u.date !in dates || (u.date == date && u.roomId !in ids))) ==> u in list
          decreases ids
        {
          var roomId :| roomId in ids;
          var room := FindRoom(rooms, roomId);
          if room.Some? && HasDetails(day[roomId]) && PassesFloor(filter, room.value) {
            var u := Upcoming(date, roomId, day[roomId].details, room.value);
            InsertSorted(list, u);
            InsertNoDuplicates(list, u);
            list := Insert(list, u);
          }
          ids := ids - {roomId};
        }
      }
      dates := dates - {date};
    }
  }

  /** The board fed with the details-only projection lists exactly what it
      lists from the full store: the projection drops nothing it would show. */
  lemma ListedThroughProjection(data: BookingData, rooms: seq<Room>, today: string,
                                filter: FloorFilter, u: Upcoming)
    ensures Listed(Embed(AllBookingsWithDetails(data)), rooms, today, filter, u)
        <==> Listed(data, rooms, today, filter, u)
  {
    var p := AllBookingsWithDetails(data);
    var e := Embed(p);
    if Listed(data, rooms, today, filter, u) {
      assert HasDetails(data[u.date][u.roomId]);
      assert u.date in p && u.roomId in p[u.date];
    }
  }

  /** A room booked by a bare `true` flag never appears in the listing. */
  lemma FlagNotListed(data: BookingData, rooms: seq<Room>, today: string, filter: FloorFilter, u: Upcoming)
    requires u.date in data && u.roomId in data[u.date] && data[u.date][u.roomId] == Flag(true)
    ensures !Listed(data, rooms, today, filter, u)
  {
  }

  /** A floor-filtered listing is the unfiltered listing restricted to that floor. */
  lemma FloorFilterRestricts(data: BookingData, rooms: seq<Room>, today: string, floor: Floor, u: Upcoming)
    ensures Listed(data, rooms, today, OnlyFloor(floor), u)
        <==> Listed(data, rooms, today, AllFloors, u) && u.room.floor == floor
  {
  }

  // ---------------------------------------------------------------------
  // Grouping by date

  /** The entries shown in one collapsible date section. */
  datatype DateGroup = DateGroup(date: string, items: seq<Upcoming>)

  /** Append the entry to its date's group, opening a new group after the
      existing ones the first time the date is seen. */
  function AddToGroups(groups: seq<DateGroup>, u: Upcoming): (r: seq<DateGroup>)
    ensures |groups| <= |r| <= |groups| + 1
  {
    if groups == [] then [DateGroup(u.date, [u])]
    else if groups[0].date == u.date then [groups[0].(items := groups[0].items + [u])] + groups[1..]
    else [groups[0]] + AddToGroups(groups[1..], u)
  }

  /** `groupBookingsByDate`: one pass over the listing, in order. */
  function GroupByDate(list: seq<Upcoming>): (groups: seq<DateGroup>)
    ensures |groups| <= |list|
    decreases |list|
  {
    if list == [] then [] else AddToGroups(GroupByDate(list[..|list| - 1]), list[|list| - 1])
  }

  /** The entries of the listing on date `d`, in listing order. */
  function OnDate(list: seq<Upcoming>, d: string): (r: seq<Upcoming>)
    ensures forall x :: x in r ==> x in list && x.date == d
    decreases |list|
  {
    if list == [] then []
    else OnDate(list[..|list| - 1], d) + (if list[|list| - 1].date == d then [list[|list| - 1]] else [])
  }

  /** The items displayed under date `d`: those of the first group with that date. */
  function GroupFor(groups: seq<DateGroup>, d: string): seq<Upcoming> {
    if groups == [] then []
    else if groups[0].date == d then groups[0].items
    else GroupFor(groups[1..], d)
  }

  /** The dates that have a group. */
  function GroupDates(groups: seq<DateGroup>): set<string> {
    if groups == [] then {} else {groups[0].date} + GroupDates(groups[1..])
  }

  /** No date has two groups. */
  predicate DistinctDates(groups: seq<DateGroup>) {
    groups == [] || (groups[0].date !in GroupDates(groups[1..]) && DistinctDates(groups[1..]))
  }

  /** Sum of the group sizes. */
  function TotalItems(groups: seq<DateGroup>): nat {
    if groups == [] then 0 else |groups[0].items| + TotalItems(groups[1..])
  }

  lemma {:induction false} GroupDatesMember(groups: seq<DateGroup>, i: int)
    requires 0 <= i < |groups|
    ensures groups[i].date in GroupDates(groups)
    decreases i
  {
    if i > 0 {
      GroupDatesMember(groups[1..], i - 1);
    }
  }

  /** Distinct dates in the recursive sense means no two groups share a date. */
  lemma {:induction false} DistinctDatesPairwise(groups: seq<DateGroup>)
    requires DistinctDates(groups)
    ensures forall i, j :: 0 <= i < j < |groups| ==> groups[i].date != groups[j].date
    decreases |groups|
  {
    if groups != [] {
      DistinctDatesPairwise(groups[1..]);
      forall i, j | 0 <= i < j < |groups|
        ensures groups[i].date != groups[j].date
      {
        if i == 0 {
          GroupDatesMember(groups[1..], j - 1);
        } else {
          assert groups[i] == groups[1..][i - 1] && groups[j] == groups[1..][j - 1];
        }
      }
    }
  }

  lemma {:induction false} AddToGroupsFor(groups: seq<DateGroup>, u: Upcoming, d: string)
    ensures GroupFor(AddToGroups(groups, u), d) == GroupFor(groups, d) + (if u.date == d then [u] else [])
    decreases |groups|
  {
    if groups != [] && groups[0].date != u.date && groups[0].date != d {
      AddToGroupsFor(groups[1..], u, d);
    }
  }

  lemma {:induction false} AddToGroupsShape(groups: seq<DateGroup>, u: Upcoming)
    requires DistinctDates(groups)
    ensures DistinctDates(AddToGroups(groups, u))
    ensures GroupDates(AddToGroups(groups, u)) == GroupDates(groups) + {u.date}
    ensures TotalItems(AddToGroups(groups, u)) == TotalItems(groups) + 1
    decreases |groups|
  {
    var r := AddToGroups(groups, u);
    if groups != [] {
      if groups[0].date == u.date {
        assert r[1..] == groups[1..];
      } else {
        AddToGroupsShape(groups[1..], u);
        assert r[1..] == AddToGroups(groups[1..], u);
      }
    }
  }

  /** With distinct dates, the first group with a date is the group itself. */
  lemma {:induction false} GroupForIndex(groups: seq<DateGroup>, i: int)
    requires DistinctDates(groups)
    requires 0 <= i < |groups|
    ensures GroupFor(groups, groups[i].date) == groups[i].items
    decreases i
  {
    if i > 0 {
      GroupDatesMember(groups[1..], i - 1);
      GroupForIndex(groups[1..], i - 1);
    }
  }

  /** The dates of a listing with one more entry. */
  lemma DatesOfSnoc(init: seq<Upcoming>, last: Upcoming)
    ensures (set x | x in init + [last] :: x.date) == (set x | x in init :: x.date) + {last.date}
  {
  }

  /** The inductive core of the grouping: one group per date, each holding
      that date's entries, and every entry counted once. */
  lemma {:induction false} GroupByDateGroups(list: seq<Upcoming>)
    ensures DistinctDates(GroupByDate(list))
    ensures forall d :: GroupFor(GroupByDate(list), d) == OnDate(list, d)
    ensures GroupDates(GroupByDate(list)) == set x | x in list :: x.date
    ensures TotalItems(GroupByDate(list)) == |list|
    decreases |list|
  {
    if list != [] {
      var init, last := list[..|list| - 1], list[|list| - 1];
      GroupByDateGroups(init);
      AddToGroupsShape(GroupByDate(init), last);
      forall d
        ensures GroupFor(GroupByDate(list), d) == OnDate(list, d)
      {
        AddToGroupsFor(GroupByDate(init), last, d);
      }
      assert list == init + [last];
      DatesOfSnoc(init, last);
    }
  }

  /** Grouping keeps every entry under its own date, in listing order, with
      one group per date and nothing lost: the group sizes add up to the
      length of the listing, the "Active Bookings" count. */
  lemma GroupByDateCorrect(list: seq<Upcoming>)
    ensures DistinctDates(GroupByDate(list))
    ensures forall i, j :: 0 <= i < j < |GroupByDate(list)| ==>
      GroupByDate(list)[i].date != GroupByDate(list)[j].date
    ensures forall d :: GroupFor(GroupByDate(list), d) == OnDate(list, d)
    ensures forall i :: 0 <= i < |GroupByDate(list)| ==>
      GroupByDate(list)[i].items == OnDate(list, GroupByDate(list)[i].date)
    ensures GroupDates(GroupByDate(list)) == set x | x in list :: x.date
    ensures TotalItems(GroupByDate(list)) == |list|
  {
    var groups := GroupByDate(list);
    GroupByDateGroups(list);
    forall i | 0 <= i < |groups|
      ensures groups[i].items == OnDate(list, groups[i].date)
    {
      GroupForIndex(groups, i);
    }
    DistinctDatesPairwise(groups);
  }
}
