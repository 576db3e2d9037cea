/** The booking store and the handlers of the admin booking screen:
    submit (create or overwrite), delete, reset a date, the per-date counts,
    the existing-booking lookup and the "details only" projection handed to
    the notice board. Each handler is a pure function returning the new store;
    persisting it is left to the caller. */
module Store {
  import opened Wrappers
  import opened Types
  import opened Rooms

  /** Store invariant: a date is present only while it holds at least one entry. */
  predicate NoEmptyDates(data: BookingData) {
    forall d :: d in data ==> |data[d]| > 0
  }

  /** `bookingData[date] || {}`: the date's entries, or none when the date is absent. */
  function CurrentBookings(data: BookingData, date: string): (day: DayBookings)
    ensures date in data ==> day == data[date]
    ensures date !in data ==> day == map[]
  {
    if date in data then data[date] else map[]
  }

  /** `handleBookingSubmit`: make sure the date has a map, then put the
      details under the selected room, replacing whatever was there. */
  function SubmitBooking(data: BookingData, date: string, selected: Option<string>,
                         details: BookingDetails): (r: BookingData)
    ensures r.Keys == data.Keys + {date}
    ensures forall d :: d in data && d != date ==> r[d] == data[d]
    ensures selected.Some? ==>
      && r[date].Keys == CurrentBookings(data, date).Keys + {selected.value}
      && r[date][selected.value] == Details(details)
    ensures selected.Some? ==>
      forall k :: k in r[date] && k != selected.value ==> r[date][k] == CurrentBookings(data, date)[k]
    ensures selected.None? ==> r[date] == CurrentBookings(data, date)
  {
    var day := CurrentBookings(data, date);
    match selected
    case Some(roomId) => data[date := day[roomId := Details(details)]]
    case None => data[date := day]
  }

  /** A submit for a selected room keeps every date non-empty. */
  lemma SubmitKeepsNoEmptyDates(data: BookingData, date: string, roomId: string, details: BookingDetails)
    requires NoEmptyDates(data)
    ensures NoEmptyDates(SubmitBooking(data, date, Some(roomId), details))
  {
    var r := SubmitBooking(data, date, Some(roomId), details);
    assert roomId in r[date];
  }

  /** Without a selected room the submit still creates an empty map for an
      absent date, the one way the handlers can leave an empty date behind. */
  lemma SubmitWithoutRoomAddsEmptyDate(data: BookingData, date: string, details: BookingDetails)
    requires date !in data
    ensures !NoEmptyDates(SubmitBooking(data, date, None, details))
  {
    var r := SubmitBooking(data, date, None, details);
    assert r[date] == map[];
  }

  /** `handleBookingDelete`: when the selected room has a truthy entry on the
      date, remove it, and remove the date too once its map is empty;
      otherwise leave the store as it is. */
  function DeleteBooking(data: BookingData, date: string, selected: Option<string>): (r: BookingData)
    ensures selected.None? ==> r == data
    ensures selected.Some? && !IsRoomBooked(CurrentBookings(data, date), selected.value) ==> r == data
    ensures selected.Some? ==> !IsRoomBooked(CurrentBookings(r, date), selected.value)
    ensures forall d :: d != date ==> (d in r <==> d in data)
    ensures forall d :: d in r && d != date ==> r[d] == data[d]
    ensures forall k :: selected.Some? && k != selected.value ==>
      (k in CurrentBookings(r, date) <==> k in CurrentBookings(data, date))
    ensures forall k :: selected.Some? && k != selected.value && k in CurrentBookings(r, date) ==>
      CurrentBookings(r, date)[k] == CurrentBookings(data, date)[k]
    ensures date in data && date !in r <==>
      selected.Some? && IsRoomBooked(CurrentBookings(data, date), selected.value)
      && data[date].Keys == {selected.value}
    ensures NoEmptyDates(data) ==> NoEmptyDates(r)
  {
    match selected
    case None => data
    case Some(roomId) =>
      if date in data && IsRoomBooked(data[date], roomId) then
        var day := data[date] - {roomId};
        if |day| == 0 then
          assert data[date].Keys == {roomId} by {
            assert forall k :: k in data[date] && k != roomId ==> k in day;
          }
          data - {date}
        else
          assert data[date].Keys != {roomId} by {
            var k :| k in day;
            assert k in data[date] && k != roomId;
          }
          data[date := day]
      else data
  }

  /** Deleting twice is deleting once. */
  lemma DeleteIdempotent(data: BookingData, date: string, selected: Option<string>)
    ensures DeleteBooking(DeleteBooking(data, date, selected), date, selected)
         == DeleteBooking(data, date, selected)
  {
  }

  /** Deleting a booking just submitted for a room that had no entry on that
      date gives back the store it started from. */
  lemma DeleteUndoesSubmit(data: BookingData, date: string, roomId: string, details: BookingDetails)
    requires NoEmptyDates(data)
    requires roomId !in CurrentBookings(data, date)
    ensures DeleteBooking(SubmitBooking(data, date, Some(roomId), details), date, Some(roomId)) == data
  {
    if date in data {
      DeleteUndoesSubmitOnBookedDate(data, date, roomId, details);
    } else {
      DeleteUndoesSubmitOnFreshDate(data, date, roomId, details);
    }
  }

  lemma DeleteUndoesSubmitOnBookedDate(data: BookingData, date: string, roomId: string, details: BookingDetails)
    requires date in data && |data[date]| > 0
    requires roomId !in data[date]
    ensures DeleteBooking(SubmitBooking(data, date, Some(roomId), details), date, Some(roomId)) == data
  {
    var day := data[date];
    var s := data[date := day[roomId := Details(details)]];
    assert SubmitBooking(data, date, Some(roomId), details) == s;
    RemoveAfterAdd(day, roomId, Details(details));
    DeleteOneOfSeveral(s, date, roomId);
    RestoreAfterUpdate(data, date, day[roomId := Details(details)]);
  }

  lemma DeleteUndoesSubmitOnFreshDate(data: BookingData, date: string, roomId: string, details: BookingDetails)
    requires date !in data
    ensures DeleteBooking(SubmitBooking(data, date, Some(roomId), details), date, Some(roomId)) == data
  {
    var s := data[date := map[roomId := Details(details)]];
    assert SubmitBooking(data, date, Some(roomId), details) == s;
    DeleteOnlyEntry(s, date, roomId);
    RemoveAfterAdd(data, date, map[roomId := Details(details)]);
  }

  /** Removing a key just added to a map gives the map back. */
  lemma RemoveAfterAdd<K, V>(m: map<K, V>, k: K, v: V)
    requires k !in m
    ensures m[k := v] - {k} == m
  {
  }

  /** Putting back the old value of an updated key gives the map back. */
  lemma RestoreAfterUpdate<K, V>(m: map<K, V>, k: K, v: V)
    requires k in m
    ensures m[k := v][k := m[k]] == m
  {
  }

  /** Deleting the only, truthy, entry of a date drops the date. */
  lemma DeleteOnlyEntry(s: BookingData, date: string, roomId: string)
    requires date in s && s[date].Keys == {roomId} && IsBooked(s[date][roomId])
    ensures DeleteBooking(s, date, Some(roomId)) == s - {date}
  {
    assert |s[date] - {roomId}| == 0 by {
      assert (s[date] - {roomId}).Keys == {};
    }
  }

  /** Deleting one truthy entry of a date that holds others keeps the date
      with the rest of its entries. */
  lemma DeleteOneOfSeveral(s: BookingData, date: string, roomId: string)
    requires date in s && roomId in s[date] && IsBooked(s[date][roomId])
    requires |s[date] - {roomId}| > 0
    ensures DeleteBooking(s, date, Some(roomId)) == s[date := s[date] - {roomId}]
  {
  }

  /** `resetAllBookings`: drop the selected date with all its entries. */
  function ResetDate(data: BookingData, date: string): (r: BookingData)
    ensures date !in r
    ensures r.Keys == data.Keys - {date}
    ensures forall d :: d in r ==> r[d] == data[d]
    ensures date !in data ==> r == data
    ensures NoEmptyDates(data) ==> NoEmptyDates(r)
  {
    if date in data then data - {date} else data
  }

  lemma ResetIdempotent(data: BookingData, date: string)
    ensures ResetDate(ResetDate(data, date), date) == ResetDate(data, date)
  {
  }

  /** Counts shown above a floor plan. */
  datatype Stats = Stats(total: int, booked: int, available: int)

  /** Room ids of a day whose entry counts as booked. */
  function BookedRoomIds(day: DayBookings): (ids: set<string>)
    ensures forall k :: k in ids <==> IsRoomBooked(day, k)
    ensures ids <= day.Keys
  {
    set k | k in day && IsBooked(day[k])
  }

  /** `getBookingStats`: total is the number of rooms, booked the number of the
      date's entries that are objects or `true`, available the difference. */
  function BookingStats(data: BookingData, date: string, rooms: seq<Room>): (s: Stats)
    ensures s.total == |rooms|
    ensures s.booked + s.available == s.total
    ensures s.booked == |BookedRoomIds(CurrentBookings(data, date))|
    ensures 0 <= s.booked <= |CurrentBookings(data, date)|
    ensures CurrentBookings(data, date).Keys <= Ids(rooms) ==> s.available >= 0
  {
    var day := CurrentBookings(data, date);
    var booked := BookedRoomIds(day);
    SubsetCard(booked, day.Keys);
    assert day.Keys <= Ids(rooms) ==> |booked| <= |Ids(rooms)| by {
      if day.Keys <= Ids(rooms) {
        SubsetCard(booked, Ids(rooms));
      }
    }
    Stats(|rooms|, |booked|, |rooms| - |booked|)
  }

  lemma {:induction false} SubsetCard<T>(a: set<T>, b: set<T>)
    requires a <= b
    ensures |a| <= |b|
    decreases |b|
  {
    if a != {} {
      var x :| x in a;
      SubsetCard(a - {x}, b - {x});
    }
  }

  /** An empty store has every room available. */
  lemma EmptyStoreStats(date: string, rooms: seq<Room>)
    ensures BookingStats(map[], date, rooms) == Stats(|rooms|, 0, |rooms|)
  {
    assert BookedRoomIds(map[]) == {};
  }

  /** `getExistingBooking`: the details stored for the selected room, only when
      the entry is an object; a flag gives nothing to edit. */
  function ExistingBooking(data: BookingData, date: string, selected: Option<string>): (r: Option<BookingDetails>)
    ensures r.Some? <==>
      selected.Some? && selected.value in CurrentBookings(data, date)
      && CurrentBookings(data, date)[selected.value].Details?
    ensures r.Some? ==> CurrentBookings(data, date)[selected.value] == Details(r.value)
  {
    match selected
    case None => None
    case Some(roomId) =>
      var day := CurrentBookings(data, date);
      if roomId in day && day[roomId].Details? then Some(day[roomId].details) else None
  }

  /** A submitted booking is what the form finds when it reopens the room. */
  lemma ExistingAfterSubmit(data: BookingData, date: string, roomId: string, details: BookingDetails)
    ensures ExistingBooking(SubmitBooking(data, date, Some(roomId), details), date, Some(roomId)) == Some(details)
  {
  }

  /** A room booked by a bare `true` flag is booked but offers no details. */
  lemma FlagHasNoDetails(data: BookingData, date: string, roomId: string)
    requires date in data && roomId in data[date] && data[date][roomId] == Flag(true)
    ensures IsRoomBooked(CurrentBookings(data, date), roomId)
    ensures ExistingBooking(data, date, Some(roomId)) == None
  {
  }

  /** The store restricted to detail objects, as handed to the notice board. */
  type DetailedData = map<string, map<string, BookingDetails>>

  /** `typeof booking === 'object' && booking.id`: an object whose id is non-empty. */
  predicate HasDetails(e: Entry) {
    e.Details? && e.details.id != ""
  }

  function DetailedDay(day: DayBookings): (r: map<string, BookingDetails>)
    ensures forall k :: k in r <==> k in day && HasDetails(day[k])
    ensures forall k :: k in r ==> day[k] == Details(r[k])
  {
    map k | k in day && HasDetails(day[k]) :: day[k].details
  }

  /** `getAllBookingsWithDetails`: keep the detail objects with an id and drop
      the dates left with none. */
  function AllBookingsWithDetails(data: BookingData): (r: DetailedData)
    ensures forall d :: d in r ==> |r[d]| > 0
    ensures forall d :: d in r ==> d in data
    ensures forall d, k :: d in r && k in r[d] ==>
      k in data[d] && data[d][k] == Details(r[d][k]) && r[d][k].id != ""
    ensures forall d, k :: d in data && k in data[d] && HasDetails(data[d][k]) ==>
      d in r && k in r[d]
  {
    map d | d in data && |DetailedDay(data[d])| > 0 :: DetailedDay(data[d])
  }

  /** A detailed store seen as a booking store again (every value an object). */
  function Embed(detailed: DetailedData): (r: BookingData)
    ensures r.Keys == detailed.Keys
    ensures forall d :: d in r ==> r[d].Keys == detailed[d].Keys
    ensures forall d, k :: d in r && k in r[d] ==> r[d][k] == Details(detailed[d][k])
  {
    map d | d in detailed :: map k | k in detailed[d] :: Details(detailed[d][k])
  }

  /** The projection leaves no empty dates behind. */
  lemma ProjectionHasNoEmptyDates(data: BookingData)
    ensures NoEmptyDates(Embed(AllBookingsWithDetails(data)))
  {
    var p := AllBookingsWithDetails(data);
    var e := Embed(p);
    forall d | d in e
      ensures |e[d]| > 0
    {
      assert e[d].Keys == p[d].Keys;
      assert |e[d].Keys| == |p[d].Keys|;
    }
  }

  /** Every detail object of a projected day is kept by a second projection. */
  lemma DetailedDayOfEmbedded(day: map<string, BookingDetails>)
    requires forall k :: k in day ==> day[k].id != ""
    ensures DetailedDay(map k | k in day :: Details(day[k])) == day
  {
    var e := map k | k in day :: Details(day[k]);
    var q := DetailedDay(e);
    assert q.Keys == day.Keys;
  }

  /** A detailed store whose dates are non-empty and whose ids are non-empty
      comes back unchanged through `Embed` and the projection. */
  lemma ProjectEmbedded(p: DetailedData)
    requires forall d :: d in p ==> |p[d]| > 0
    requires forall d, k :: d in p && k in p[d] ==> p[d][k].id != ""
    ensures AllBookingsWithDetails(Embed(p)) == p
  {
    var q := AllBookingsWithDetails(Embed(p));
    forall d | d in p
      ensures d in q && q[d] == p[d]
    {
      ProjectEmbeddedDate(p, d);
    }
    assert forall d :: d in q ==> d in p;
    SameEntries(q, p);
  }

  /** One date of such a store survives `Embed` and the projection intact. */
  lemma ProjectEmbeddedDate(p: DetailedData, d: string)
    requires d in p && |p[d]| > 0
    requires forall k :: k in p[d] ==> p[d][k].id != ""
    ensures d in AllBookingsWithDetails(Embed(p))
    ensures AllBookingsWithDetails(Embed(p))[d] == p[d]
  {
    var e := Embed(p);
    assert e[d] == map k | k in p[d] :: Details(p[d][k]);
    DetailedDayOfEmbedded(p[d]);
    ProjectedDay(e, d);
  }

  /** Two maps with the same keys and the same value under each key are equal. */
  lemma SameEntries<K, V>(a: map<K, V>, b: map<K, V>)
    requires forall k :: k in b ==> k in a && a[k] == b[k]
    requires forall k :: k in a ==> k in b
    ensures a == b
  {
  }

  /** A date with at least one detail object is kept, with exactly those objects. */
  lemma ProjectedDay(data: BookingData, d: string)
    requires d in data && |DetailedDay(data[d])| > 0
    ensures d in AllBookingsWithDetails(data)
    ensures AllBookingsWithDetails(data)[d] == DetailedDay(data[d])
  {
  }

  /** Projecting a projected store changes nothing. */
  lemma ProjectionIdempotent(data: BookingData)
    ensures AllBookingsWithDetails(Embed(AllBookingsWithDetails(data))) == AllBookingsWithDetails(data)
  {
    ProjectEmbedded(AllBookingsWithDetails(data));
  }
}
