# Room booking: a Dafny model of the booking store

The department's room booking app keeps every reservation in one nested map.
The map goes from a `YYYY-MM-DD` date to a room id to an entry. An entry is
either the full booking details or a bare boolean flag. Every screen of the
app reads or rewrites that map:

- the admin booking screen submits, deletes and resets bookings, and counts
  booked and available rooms for the chosen date;
- the floor plan shows each room of a floor as booked or free;
- the notice board and the public notice board list the upcoming bookings,
  sorted by date and start time, grouped by date or cut to the first ten;
- the booking form validates its fields and stamps the booking's id and
  creation time;
- the calendar formats date keys, lays out the month grid and refuses past
  days;
- the top-level view switch moves between login, calendar, booking screen and
  public board.

This project models all of that as immutable Dafny datatypes and pure
functions. One method builds the upcoming list. The project proves what the
screens rely on.

| file | module | what it holds |
|---|---|---|
| `wrappers.dfy` | `Wrappers` | `Option` |
| `strings.dfy` | `Strings` | JavaScript string order, `trim`/`\s` whitespace, number-to-text, two-digit padding |
| `types.dfy` | `Types` | rooms, booking details, entries, the store |
| `rooms.dfy` | `Rooms` | the twelve-room catalog, room lookup, floor filter |
| `store.dfy` | `Store` | submit, delete, reset, counts, existing-booking lookup, details-only projection |
| `floorplan.dfy` | `FloorPlan` | per-floor counts and room blocks |
| `noticeboard.dfy` | `NoticeBoard` | the upcoming list and its grouping by date |
| `dates.dfy` | `Dates` | Gregorian calendar arithmetic and the `YYYY-MM-DD` key format |
| `timezone.dfy` | `TimeZone` | the boards' date test with a time-zone offset, as written and as intended |
| `calendar.dfy` | `Calendar` | month navigation, the month grid, the past-day guard |
| `publicboard.dfy` | `PublicBoard` | department totals, the seven-day date picker, the top-ten slice |
| `form.dfy` | `BookingForm` | validation, submit, initial state, field edits |
| `app.dfy` | `App` | the view state machine |

Modelling choices:

- **Handlers are pure.** Each store handler returns the new store instead of
  mutating it. The source shallow-copies the outer map but mutates the inner
  map that the previous state still shares. Only the new value is observable
  after the state update, so the pure model describes what each handler
  produces.
- **"Today" is a parameter.** The current day, the fresh id suffix and the
  creation time are inputs, not clock or random reads.
- **Booked means truthy.** A room counts as booked when its entry is an
  object, or is the flag `true`. A `false` flag is not booked. The delete
  handler tests plain truthiness, so it leaves a `false` flag in place.
- **Dates are compared as strings.** The date keys are compared as strings
  (`Strings.Less`), not parsed into `Date` objects. `Dates.FormatDateOrder`
  proves that for four-digit years the string order of the keys is the
  calendar order. So "on or after today" and "sorted by date" mean the same
  as the source's date comparisons when the local time zone is UTC (see
  "## Findings" for other zones).
- **Tie order is not modelled.** The source sorts by (date, startTime), but
  the order of ties depends on the map's iteration order. Dafny maps have
  none. So the listing is specified as exactly the qualifying entries, once
  each, in non-decreasing (date, startTime) order.

## Model

| member | source | states |
|---|---|---|
| Types.EntryKinds | src/types/booking.ts:35-39 | an entry is details or a flag and never both; it counts as booked unless it is the flag `false` |
| Rooms.CatalogWellFormed | src/data/rooms.ts:3-115 | the catalog has 12 rooms with pairwise distinct ids, positive capacity, non-empty equipment, and blocks that fit the 6-column grid |
| Rooms.CatalogIdsDistinct | src/data/rooms.ts:3-115 | no two catalog rooms share an id |
| Rooms.CatalogHalves | src/data/rooms.ts:4-114 | the catalog is the six ground-floor rooms followed by the six first-floor rooms, each room on its half's floor |
| Rooms.CatalogFloors | src/data/rooms.ts:4-114 | filtering the catalog by floor gives exactly its six ground-floor rooms and exactly its six first-floor rooms, in catalog order |
| Rooms.FloorsOfHalves | src/components/FloorPlan.tsx:15 | a list of ground-floor rooms followed by a list of first-floor rooms splits back into those two lists under the floor filter |
| Rooms.CatalogIdDigits | src/data/rooms.ts:3-115 | each catalog id ends in its floor digit (1 or 2), then `0`, then its position on the floor (1 to 6) |
| Rooms.CatalogRoomsUsable | src/data/rooms.ts:3-115 | every catalog room has positive capacity, some equipment and a block that fits the 6-column grid |
| Rooms.Ids | src/data/rooms.ts:3-115 | every room's id is in the id set, which is no larger than the room list |
| Rooms.IdsMember | src/components/NoticeBoard.tsx:14-16 | an id in the id set belongs to some room of the list |
| Rooms.IdsNonMember | src/components/NoticeBoard.tsx:14-16 | an id that no room carries is not in the id set |
| Rooms.FindRoom | src/components/NoticeBoard.tsx:14-16 | `find` by id gives a room of the list with that id, and nothing exactly when no room has the id |
| Rooms.FindRoomUnique | src/components/NoticeBoard.tsx:14-16 | with distinct ids, looking up a room's own id finds that room |
| Rooms.FloorRooms | src/components/FloorPlan.tsx:15 | the floor filter keeps exactly the rooms on that floor |
| Rooms.FloorRoomsAppend | src/components/FloorPlan.tsx:15 | filtering a concatenation filters each part and keeps catalog order |
| Rooms.FloorsPartition | src/components/PublicNoticeBoard.tsx:81-84 | every room is on exactly one of the two floors, so the floor sizes add up to the list length |
| Rooms.FloorRoomsUniform | src/components/FloorPlan.tsx:15 | a list all on one floor is kept whole by that floor's filter and emptied by the other's |
| Store.CurrentBookings | src/components/BookingInterface.tsx:77-79 | the date's map when the date is present, the empty map otherwise |
| Store.SubmitBooking | src/components/BookingInterface.tsx:41-50 | the date is present afterwards; the selected room now holds the details, overwriting any earlier entry; other rooms of the date and all other dates are unchanged |
| Store.SubmitKeepsNoEmptyDates | src/components/BookingInterface.tsx:41-50 | submitting for a selected room keeps every stored date non-empty |
| Store.SubmitWithoutRoomAddsEmptyDate | src/components/BookingInterface.tsx:44-50 | with no room selected, submitting on a new date leaves an empty map under that date |
| Store.DeleteBooking | src/components/BookingInterface.tsx:58-69 | no selected room or no truthy entry leaves the store unchanged; otherwise the room is no longer booked, the date disappears exactly when its map empties, other rooms and dates are untouched, and non-empty dates stay non-empty |
| Store.DeleteIdempotent | src/components/BookingInterface.tsx:58-69 | deleting twice is the same as deleting once |
| Store.DeleteUndoesSubmit | src/components/BookingInterface.tsx:41-69 | on a store without empty dates, deleting a booking just submitted for a room that had no entry gives back the original store |
| Store.DeleteUndoesSubmitOnBookedDate | src/components/BookingInterface.tsx:41-69 | the same round trip when the date already held other rooms |
| Store.DeleteUndoesSubmitOnFreshDate | src/components/BookingInterface.tsx:41-69 | the same round trip when the date was absent, which removes the date again |
| Store.DeleteOnlyEntry | src/components/BookingInterface.tsx:58-69 | deleting the only entry of a date, when it is truthy, removes the date |
| Store.DeleteOneOfSeveral | src/components/BookingInterface.tsx:58-69 | deleting a truthy entry from a date with other entries keeps the date with the others |
| Store.ResetDate | src/components/BookingInterface.tsx:90-97 | the date is gone, every other date is unchanged, an absent date leaves the store as it was, and non-empty dates stay non-empty |
| Store.ResetIdempotent | src/components/BookingInterface.tsx:90-97 | resetting a date twice is the same as once |
| Store.BookedRoomIds | src/components/BookingInterface.tsx:84-86 | exactly the room ids whose entry is an object or `true` |
| Store.BookingStats | src/components/BookingInterface.tsx:81-88 | total is the room count, booked counts the object or `true` entries and is at most the entries of the date, booked plus available is total, and available is non-negative when every key is a room id |
| Store.EmptyStoreStats | src/components/BookingInterface.tsx:81-88 | on an empty store every room is available |
| Store.ExistingBooking | src/components/BookingInterface.tsx:101-105 | details come back exactly when a room is selected and its entry is an object, and they are that entry's |
| Store.ExistingAfterSubmit | src/components/BookingInterface.tsx:41-50 | after submitting for a room, the form opened on it is pre-filled with the submitted details |
| Store.FlagHasNoDetails | src/components/BookingInterface.tsx:101-105 | a `true` flag shows the room booked but gives the form nothing to edit |
| Store.DetailedDay | src/components/BookingInterface.tsx:112-117 | keeps exactly the object entries with a non-empty id, unchanged |
| Store.AllBookingsWithDetails | src/components/BookingInterface.tsx:108-124 | every kept date has an entry; every kept entry is an object entry with a non-empty id from the store; every such store entry is kept |
| Store.Embed | src/components/NoticeBoard.tsx:5-8 | a details-only store read as a booking store: same dates, same rooms, each entry the details |
| Store.ProjectionHasNoEmptyDates | src/components/BookingInterface.tsx:118-120 | the projection has no empty date maps |
| Store.DetailedDayOfEmbedded | src/components/BookingInterface.tsx:112-117 | a day of details with non-empty ids passes the filter unchanged |
| Store.ProjectEmbedded | src/components/BookingInterface.tsx:108-124 | a details-only store without empty dates or empty ids is its own projection (round trip) |
| Store.ProjectEmbeddedDate | src/components/BookingInterface.tsx:108-124 | one date of such a store comes through the round trip unchanged |
| Store.ProjectedDay | src/components/BookingInterface.tsx:118-120 | a date with at least one detail object is kept, holding exactly those objects |
| Store.ProjectionIdempotent | src/components/BookingInterface.tsx:108-124 | projecting twice is projecting once |
| Store.SubsetCard | src/components/BookingInterface.tsx:84-87 | a subset is no larger, which bounds the booked count |
| FloorPlan.CountBooked | src/components/FloorPlan.tsx:19-23 | at most as many booked rooms as rooms |
| FloorPlan.CountBookedAppend | src/components/FloorPlan.tsx:19-23 | the count over a concatenation is the sum of the counts |
| FloorPlan.CountBookedCons | src/components/FloorPlan.tsx:19-23 | the count over a list is one for its first room when that room is booked, plus the count over the rest |
| FloorPlan.DistinctIdsTail | src/components/FloorPlan.tsx:19-23 | with distinct ids, the rest of a list keeps distinct ids and does not hold the first room's id |
| FloorPlan.FloorStats | src/components/FloorPlan.tsx:17-25 | total is the floor's room count, booked is the floor's booked rooms, `0 <= booked <= total`, and available is total minus booked and is non-negative |
| FloorPlan.BlockFor | src/components/FloorPlan.tsx:35-44 | a block is shown booked exactly when the entry is an object or `true`, and gets details exactly when the entry is an object |
| FloorPlan.BlocksOf | src/components/FloorPlan.tsx:34-45 | one block per room, in order |
| FloorPlan.RoomBlocks | src/components/FloorPlan.tsx:34-45 | one block per room of the floor, in catalog order, all on that floor |
| FloorPlan.CountBookedBlocks | src/components/FloorPlan.tsx:34-45 | at most as many booked blocks as blocks |
| FloorPlan.CountBlocksOf | src/components/FloorPlan.tsx:17-45 | the booked blocks are exactly the rooms the count counts |
| FloorPlan.StatsMatchBlocks | src/components/FloorPlan.tsx:17-45 | the header's booked count equals the number of blocks drawn booked, and is at most the total |
| FloorPlan.FloorCountsAddUp | src/components/PublicNoticeBoard.tsx:68-84 | the ground and first floor booked counts add up to the count over all rooms |
| FloorPlan.CountBookedIsCardinality | src/components/FloorPlan.tsx:19-23 | with distinct ids, the booked count is the number of booked ids that are room ids |
| FloorPlan.FloorsAgreeWithBookingStats | src/components/BookingInterface.tsx:81-88 | when every key of the date is a room id, the two floor counts add up to the admin screen's booked count |
| NoticeBoard.InOrderTotal | src/components/NoticeBoard.tsx:43-47 | any two entries are ordered one way or the other by (date, start time) |
| NoticeBoard.InOrderTransitive | src/components/NoticeBoard.tsx:43-47 | the (date, start time) order is transitive |
| NoticeBoard.Insert | src/components/NoticeBoard.tsx:43-47 | inserting adds exactly that entry: one more element, same multiset plus it |
| NoticeBoard.InsertSorted | src/components/NoticeBoard.tsx:43-47 | inserting into a sorted list keeps it sorted |
| NoticeBoard.InsertNoDuplicates | src/components/NoticeBoard.tsx:43-47 | inserting a new entry into a duplicate-free list keeps it duplicate-free |
| NoticeBoard.SortedCons | src/components/NoticeBoard.tsx:43-47 | an entry in order with every entry of a sorted list can head it |
| NoticeBoard.SortedTail | src/components/NoticeBoard.tsx:43-47 | the rest of a sorted list is sorted |
| NoticeBoard.NoDuplicatesCons | src/components/NoticeBoard.tsx:43-47 | an entry not in a duplicate-free list can head it |
| NoticeBoard.NoDuplicatesTail | src/components/NoticeBoard.tsx:43-47 | the rest of a duplicate-free list is duplicate-free and does not hold its first entry |
| NoticeBoard.UpcomingBookings | src/components/NoticeBoard.tsx:18-48 | the list is sorted by (date, start time), has no duplicates, and holds exactly the entries dated today or later whose room is in the catalog, whose booking is an object with a non-empty id, and which pass the floor filter |
| NoticeBoard.ListedThroughProjection | src/components/BookingInterface.tsx:108-124 | the board fed the details-only projection lists exactly what it would list from the full store |
| NoticeBoard.FlagNotListed | src/components/NoticeBoard.tsx:34 | a `true` flag is never listed |
| NoticeBoard.FloorFilterRestricts | src/components/NoticeBoard.tsx:35-37 | a floor-filtered listing is the unfiltered one restricted to rooms on that floor |
| NoticeBoard.AddToGroups | src/components/NoticeBoard.tsx:52-57 | adding an entry opens at most one new group |
| NoticeBoard.GroupByDate | src/components/NoticeBoard.tsx:50-59 | no more groups than entries |
| NoticeBoard.OnDate | src/components/NoticeBoard.tsx:50-59 | the entries of one date, in list order |
| NoticeBoard.GroupByDateGroups | src/components/NoticeBoard.tsx:50-59 | by induction over the list: distinct group dates, each date's group is its entries in list order, the dates are the list's, and the sizes add up to its length |
| NoticeBoard.GroupByDateCorrect | src/components/NoticeBoard.tsx:50-59 | one group per date with pairwise distinct dates; each group is the list's entries of that date in list order; the dates are those of the list; group sizes add up to the list length |
| NoticeBoard.AddToGroupsShape | src/components/NoticeBoard.tsx:52-57 | adding an entry keeps group dates distinct, adds the entry's date to the dates, and adds one to the entry total |
| NoticeBoard.AddToGroupsFor | src/components/NoticeBoard.tsx:52-57 | after adding an entry, the group of its date ends with it and every other date's group is unchanged |
| NoticeBoard.GroupForIndex | src/components/NoticeBoard.tsx:50-59 | with distinct dates, the group found for a date is that date's group |
| NoticeBoard.GroupDatesMember | src/components/NoticeBoard.tsx:50-59 | every group's date is among the group dates |
| NoticeBoard.DistinctDatesPairwise | src/components/NoticeBoard.tsx:50-59 | dates that are distinct group by group are pairwise distinct |
| NoticeBoard.TotalItems | src/components/NoticeBoard.tsx:103 | the number of entries over all groups; `GroupByDateCorrect` equates it with the list length, the "Active Bookings" count |
| Strings.LessIrreflexive | src/components/NoticeBoard.tsx:43-47 | no string sorts before itself |
| Strings.LessTransitive | src/components/NoticeBoard.tsx:43-47 | string order is transitive |
| Strings.LessTotal | src/components/NoticeBoard.tsx:43-47 | two different strings are ordered one way or the other |
| Strings.LessAsymmetric | src/components/NoticeBoard.tsx:43-47 | string order is asymmetric |
| Strings.NotLessIsLessEq | src/components/BookingForm.tsx:51 | `a >= b` holds exactly when `a < b` does not |
| Strings.LessConcat | src/components/Calendar.tsx:48-52 | for prefixes of equal length, concatenations compare by prefix first, then by suffix |
| Strings.NatToString | src/components/Calendar.tsx:48-52 | decimal text of a number: non-empty, digits only, one digit exactly below ten |
| Strings.IntToString | src/components/BookingForm.tsx:56 | a non-negative integer prints as its decimal digits, a negative one as `-` followed by the digits of its absolute value |
| Strings.IntToStringInjective | src/components/BookingForm.tsx:56 | different integers print as different text |
| Strings.ParseNatToString | src/components/Calendar.tsx:48-52 | reading the decimal text back gives the number (round trip) |
| Strings.NatToStringInjective | src/components/Calendar.tsx:48-52 | different numbers have different decimal text |
| Strings.PadTwo | src/components/Calendar.tsx:49-51 | `padStart(2, "0")`: two characters for numbers below 100, the number's text otherwise |
| Strings.PadTwoOrder | src/components/Calendar.tsx:49-51 | for numbers below 100, padded text compares like the numbers |
| Strings.TwoDigits | src/components/Calendar.tsx:49-51 | padded text of a number below 100 is two digits |
| Dates.DaysInMonth | src/components/Calendar.tsx:30-32 | a Gregorian month has 28 to 31 days |
| Dates.MonthsFillYear | src/components/Calendar.tsx:30-32 | the twelve months add up to the year's length |
| Dates.DaysBeforeMonthMonotone | src/components/Calendar.tsx:63-68 | a later month starts later in the year |
| Dates.DaysBeforeYearMonotone | src/components/Calendar.tsx:63-68 | a later year starts later |
| Dates.Weekday | src/components/Calendar.tsx:34-36 | `getDay`: a weekday from 0 (Sunday) to 6 |
| Dates.DaysBeforeYearClosed | src/components/Calendar.tsx:34-36 | the days before a year are 365 per year plus the Gregorian leap days (every 4th year, not every 100th, again every 400th) |
| Dates.LeapDaysStep | src/components/Calendar.tsx:34-36 | the leap-day count grows by exactly the length of the next year |
| Dates.WeekdayStep | src/components/Calendar.tsx:34-36 | the next day's weekday is the following one, Saturday wrapping to Sunday |
| Dates.WeekdayFormula | src/components/Calendar.tsx:34-36 | a day's weekday follows from the closed count of days before its year and month |
| Dates.WeekdayAnchor | src/components/Calendar.tsx:34-36 | 10 October 2026 (month index 9) is a Saturday |
| Dates.NextDay | src/components/PublicNoticeBoard.tsx:89-92 | the following day is a valid day, in the same year or on 1 January of the next |
| Dates.NextDayIsConsecutive | src/components/PublicNoticeBoard.tsx:89-92 | the next day's number is one more |
| Dates.DayWithinMonth | src/components/Calendar.tsx:63-68 | a day lies within its month's span of day numbers |
| Dates.DayWithinYear | src/components/Calendar.tsx:63-68 | a day lies within its year's span of day numbers |
| Dates.DayNumberOrder | src/components/Calendar.tsx:63-68 | one day is before another exactly when its day number is smaller, and days are equal exactly when their numbers are |
| Dates.BeforeImpliesSmaller | src/components/Calendar.tsx:63-68 | an earlier day has a smaller day number |
| Dates.FormatDate | src/components/Calendar.tsx:48-52 | the year's text, `-`, the 1-based month padded to two digits, `-`, the day padded to two digits |
| Dates.FourDigits | src/components/Calendar.tsx:48-52 | a year from 1000 to 9999 is written with four digits |
| Dates.NatToStringOrder | src/components/Calendar.tsx:48-52 | numbers of the same digit count compare like their text |
| Dates.PadTwoInjective | src/components/Calendar.tsx:49-51 | different numbers below 100 pad to different text |
| Dates.PadTwoEqual | src/components/Calendar.tsx:49-51 | equal padded text means equal numbers below 100 |
| Dates.SamePrefixLess | src/components/Calendar.tsx:48-52 | a shared prefix does not change string order |
| Dates.DashJoinLess | src/components/Calendar.tsx:48-52 | `-a-b` sorts before `-c-d` exactly when `a` sorts before `c`, or `a` equals `c` and `b` sorts before `d`, given `a` and `c` of equal length |
| Dates.MonthDaySuffixParts | src/components/Calendar.tsx:48-52 | the `-MM-DD` part has six characters, with the padded month at 1-2 and the padded day at 4-5 |
| Dates.MonthDaySuffixOrder | src/components/Calendar.tsx:48-52 | the `-MM-DD` part compares like (month, day) |
| Dates.MonthDaySuffixEqual | src/components/Calendar.tsx:48-52 | equal `-MM-DD` parts mean the same month and day |
| Dates.FormatDateOrder | src/components/NoticeBoard.tsx:29-47 | for four-digit years, one date key sorts before another exactly when its day comes first in the calendar |
| Dates.FormatDateInjective | src/components/Calendar.tsx:48-52 | for four-digit years, different days have different keys |
| Calendar.PrevMonth | src/components/Calendar.tsx:38-46 | one month back, wrapping from January to December of the year before |
| Calendar.NextMonth | src/components/Calendar.tsx:38-46 | one month forward, wrapping from December to January of the year after |
| Calendar.NavigateRoundTrip | src/components/Calendar.tsx:38-46 | going back then forward, or forward then back, returns to the same month |
| Calendar.DayButtons | src/components/Calendar.tsx:86-127 | one button per day of the month, day 1 first |
| Calendar.PadFront | src/components/Calendar.tsx:81-84 | the given number of blanks, then the buttons in order |
| Calendar.CalendarGrid | src/components/Calendar.tsx:76-129 | as many blanks as the weekday of the 1st, then buttons for days 1 to the month's length in order |
| Calendar.GridButtons | src/components/Calendar.tsx:87-103 | each button carries its day's key; it is selected exactly when that key is the selected date, today exactly on today's date, and past exactly when before today |
| Calendar.AtMostOneSelected | src/components/Calendar.tsx:93 | for four-digit years no two buttons of a grid are selected together |
| Calendar.DateClick | src/components/Calendar.tsx:63-74 | a past day reports nothing; any other day reports its key |
| Calendar.ClickedDateNotBeforeToday | src/components/Calendar.tsx:63-74 | for four-digit years a reported key is not before today's key, so it passes the notice board's date test when the local time zone is UTC |
| PublicBoard.DepartmentStats | src/components/PublicNoticeBoard.tsx:81-84 | the sum of the two floor stats: total is the room count, booked is the count of booked rooms, and `0 <= booked <= total` |
| PublicBoard.CatalogDepartmentStats | src/components/PublicNoticeBoard.tsx:172-200 | over the catalog the department has 12 rooms and its totals equal the admin screen's counts when every key is a catalog id |
| PublicBoard.PublicUpcomingBookings | src/components/PublicNoticeBoard.tsx:30-58 | sorted, duplicate-free, and exactly the detailed catalog entries dated today or later, with no floor filter |
| PublicBoard.Displayed | src/components/PublicNoticeBoard.tsx:259 | the first ten entries, or all of them when there are fewer, in list order |
| PublicBoard.DisplayedKeepsOrder | src/components/PublicNoticeBoard.tsx:259 | the shown entries stay sorted and duplicate-free and come from the list |
| PublicBoard.DaysFrom | src/components/PublicNoticeBoard.tsx:86-95 | the requested number of valid days, starting at the given one |
| PublicBoard.DaysFromConsecutive | src/components/PublicNoticeBoard.tsx:86-95 | the i-th day is i days after the start, and at most i years later |
| PublicBoard.DateOptions | src/components/PublicNoticeBoard.tsx:86-95 | seven keys: today's first, then the keys of the following days |
| PublicBoard.DateOptionsIncreasing | src/components/PublicNoticeBoard.tsx:86-95 | starting from a year between 1000 and 9993, the seven keys are strictly increasing, so pairwise distinct |
| PublicBoard.OptionCaption | src/components/PublicNoticeBoard.tsx:97-114 | "Today" exactly for today, "Tomorrow" exactly for the next day, a weekday otherwise |
| PublicBoard.DateOptionCaptions | src/components/PublicNoticeBoard.tsx:86-114 | the first option reads "Today", the second "Tomorrow", and the other five a weekday |
| BookingForm.EmailCheckIsPattern | src/components/BookingForm.tsx:43 | the decidable email check accepts exactly the strings in which `\S+@\S+\.\S+` finds a match anywhere |
| BookingForm.EmailCheckSound | src/components/BookingForm.tsx:43 | a string the decidable check accepts has a match of the regular expression |
| BookingForm.EmailCheckComplete | src/components/BookingForm.tsx:43 | a string with a match of the regular expression passes the decidable check |
| BookingForm.ErrorKeysDistinct | src/components/BookingForm.tsx:37-57 | the five error keys `bookedBy`, `email`, `purpose`, `time` and `participants` are different strings |
| BookingForm.NoteAt | src/components/BookingForm.tsx:37-57 | one rule's step: a failing rule puts its message under its key, and every other key keeps what it had |
| BookingForm.MessagesAt | src/components/BookingForm.tsx:35-57 | after the five steps, a key holds a message exactly when a failing rule owns it, and the message is that rule's |
| BookingForm.MessagesRules | src/components/BookingForm.tsx:35-57 | each of the five keys is present exactly when its rule fails, with its rule's message, and no other key appears |
| BookingForm.Validate | src/components/BookingForm.tsx:34-61 | one error per failing rule and under the right key: blank name, blank email or one the decidable email check rejects, blank purpose, start not before end (`time`), participants outside 1 to capacity; each with its message |
| BookingForm.ValidIffRulesHold | src/components/BookingForm.tsx:34-61 | the error map is empty exactly when every rule holds, with the email rule stated as a match of the regular expression itself |
| BookingForm.OrElse | src/components/BookingForm.tsx:23-29 | JavaScript `a \|\| b` on strings: `a` unless it is empty |
| BookingForm.Submit | src/components/BookingForm.tsx:63-77 | nothing when a rule fails; otherwise the form's fields with notes, the existing id and creation time when non-empty, else `booking_` plus a fresh suffix and the current time; the id is never empty |
| BookingForm.InitialForm | src/components/BookingForm.tsx:22-30 | a new form is empty text, 09:00 to 10:00, one participant; an edit form takes the booking's values, with those defaults where a value is empty |
| BookingForm.NewFormErrors | src/components/BookingForm.tsx:22-61 | a new form for a room with capacity fails only the name, email and purpose rules |
| BookingForm.ResubmitUnchanged | src/components/BookingForm.tsx:22-77 | opening a valid existing booking and submitting it unchanged gives back the same booking |
| BookingForm.SubmittedBookingIsListed | src/components/BookingForm.tsx:63-77 | a booking the form accepts, stored for a catalog room on a date not before today, appears on the notice board |
| BookingForm.FieldKeysDistinct | src/components/BookingForm.tsx:79-84 | field names are distinct, and none is the shared `time` key |
| BookingForm.Get | src/components/BookingForm.tsx:22-30 | the head-count field holds a number, the others text |
| BookingForm.ParticipantsInput | src/components/BookingForm.tsx:234 | `parseInt(value) \|\| 1`: the typed number, or one when it is zero or does not parse; never zero |
| BookingForm.InputChange | src/components/BookingForm.tsx:79-84 | the edited field reads back the new value and the others are unchanged; the error keys stay the same; the field's own error is no longer shown; every other error, including `time`, is unchanged |
| App.Step | src/App.tsx:15-36 | login signs in and shows the calendar; back to login signs out; choosing a date records it and shows the booking view; back to calendar keeps the date; the notice board keeps the sign-in |
| App.Render | src/App.tsx:38-97 | nothing is shown exactly in the booking view without a non-empty date; the booking screen shows the selected date |
| App.CalendarDatesEnabled | src/App.tsx:73-76 | every date the calendar reports can be handed to the app from the calendar view |
| App.StepKeepsInvariant | src/App.tsx:15-97 | a handler offered by the current screen keeps the admin screens signed in and the booking view dated |
| App.TraceKeepsInvariant | src/App.tsx:15-97 | so does any run of offered handlers |
| App.Reachable | src/App.tsx:11-97 | from the initial state every reachable state keeps that invariant and renders a screen |
| App.HandlersAloneDoNotGuard | src/App.tsx:24-27 | the date handler on its own would show the booking view to nobody signed in; the login screen does not offer it |
| App.NoticeWithoutLogin | src/App.tsx:20-22 | the public board is one step from the start, without signing in |
| TimeZone.KeyInstant | src/components/NoticeBoard.tsx:30 | `new Date(key)` is midnight UTC of the key's day: a whole number of days, as many as the day's number |
| TimeZone.LocalMidnight | src/components/NoticeBoard.tsx:19-20 | `setHours(0, 0, 0, 0)` is today's midnight UTC moved by the zone's offset |
| TimeZone.TodayDroppedWestOfUtc | src/components/NoticeBoard.tsx:19-31 | behind UTC the test as written rejects today's own key |
| TimeZone.SourceDateTestEastOfUtc | src/components/PublicNoticeBoard.tsx:31-43 | at UTC or less than a day east of it the test as written keeps exactly the days numbered today or later |
| TimeZone.LocalDateTestMeaning | src/components/NoticeBoard.tsx:19-31 | the intended test keeps exactly the days numbered today or later, today included |
| TimeZone.LocalDateTestIsKeyOrder | src/components/NoticeBoard.tsx:19-31 | for four-digit years the intended test is the key comparison the boards are modelled with, and agrees with the source from UTC eastwards |

## Left out

- Loading and saving the store through `localStorage` with `JSON.parse`/`JSON.stringify` is browser I/O and is not modelled. A missing key reads as the empty store. The source has no fallback when the saved text fails to parse.
- JavaScript `Date` semantics are not modelled: time zones, UTC-versus-local parsing of `new Date("YYYY-MM-DD")`, and `setMonth` day overflow. Days are proleptic Gregorian (year, month, day) triples with year at least 1, and "today" is a parameter.
- The public board's date options come from `toISOString`, which pads years to four digits and works in UTC. `PublicBoard.DateOptions` uses the calendar's key format. The two agree for years 1000 to 9999, where the ordering lemmas apply, when the local time zone is UTC.
- Locale formatting (`toLocaleDateString`, `toLocaleTimeString`) is presentation and is not modelled. `PublicBoard.OptionCaption` keeps only the Today/Tomorrow/other choice.
- The fresh id (`Date.now()` plus `Math.random()`) and the creation timestamp are not modelled. They are inputs to `BookingForm.Submit`.
- src/components/Login.tsx (a fixed credential compare with timers) is reduced to the `Login` event of `App.Step`.
- src/components/auth/Login.tsx and src/components/auth/Signup.tsx are not part of this model. They wrap an authentication context that is not present.
- src/components/RoomBlock.tsx, all markup and styling, and the expand, tooltip and floor-tab UI state are not modelled. They have no behaviour beyond display.
- NoticeBoard.UpcomingBookings: the relative order of entries with equal date and start time is left open, because it depends on the map's key order. The source's `localeCompare` on start times is modelled as plain string order. The two agree on the zero-padded `HH:MM` times the form produces.
- BookingForm.Validate: participants are an integer. The `NaN` that `parseInt` can produce is absorbed by `BookingForm.ParticipantsInput` before it reaches the form.
- BookingForm.InputChange: it requires a text value for text fields and a number for the head count, as every caller in the form passes.
- PublicBoard.DateOptionsIncreasing: it requires a start year from 1000 to 9993, so that all seven days keep four-digit years. Outside that range string order and calendar order can differ.
- Calendar.AtMostOneSelected and Calendar.ClickedDateNotBeforeToday: they require four-digit years, for the same reason.
- NoticeBoard.UpcomingBookings (and PublicBoard.PublicUpcomingBookings): the model keeps entries dated today, as intended. The source reads a key as UTC midnight and compares it with local midnight, so in a zone behind UTC it drops today's entries. This is the "## Findings" row.
- PublicBoard.DateOptionCaptions: the captions assume the local time zone is UTC. Behind UTC, `new Date(key)` falls on the previous local day. Option 0 then gets the previous day's weekday caption, and "Today" lands on option 1.
- Calendar.ClickedDateNotBeforeToday: "passes the notice board's date test" holds for the model's key comparison and for the source's test at UTC or east of it. Behind UTC the source's test rejects today's key (`TimeZone.TodayDroppedWestOfUtc`).
- Strings.Less orders by Unicode scalar value, while JavaScript orders by UTF-16 code unit. The two differ only for characters outside the Basic Multilingual Plane, which date keys and times never contain.
- The booking screen's room click (`handleRoomClick`) appears only through the selected room parameter (`Option<string>`) of the store handlers.

## Findings

| source | as written | input that shows it | evidently intended | confidence | as-written member | corrected member |
|---|---|---|---|---|---|---|
| src/components/NoticeBoard.tsx:19-31, src/components/PublicNoticeBoard.tsx:31-43 | `new Date(date) >= today`, where the date-only key parses as midnight UTC and `today` is local midnight | a zone behind UTC, e.g. UTC-5 (`offset` 300): today's key is 19:00 the previous local evening, so today's bookings are not listed | a booking dated today is upcoming in every zone | not executed; high | TimeZone.SourceDateTest, shown by TimeZone.TodayDroppedWestOfUtc | TimeZone.LocalDateTest, proved by TimeZone.LocalDateTestMeaning and TimeZone.LocalDateTestIsKeyOrder; the boards use the equivalent key comparison `NoticeBoard.OnOrAfter` |
