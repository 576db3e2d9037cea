/** The records of the booking system: rooms, booking details and the
    nested booking store `date -> roomId -> (details | flag)`. */
module Types {
  import opened Wrappers

  datatype RoomType = Lab | Classroom | Office | Meeting

  datatype Floor = Ground | First

  /** Layout cell of a room on the floor grid; all four are plain numbers. */
  datatype GridPosition = GridPosition(row: int, col: int, width: int, height: int)

  datatype Room = Room(
    id: string,
    name: string,
    kind: RoomType,
    capacity: int,
    equipment: seq<string>,
    floor: Floor,
    grid: GridPosition)

  /** Every field is present except `notes`, the only optional one. */
  datatype BookingDetails = BookingDetails(
    id: string,
    bookedBy: string,
    email: string,
    purpose: string,
    startTime: string,
    endTime: string,
    participants: int,
    notes: Option<string>,
    createdAt: string)

  /** A stored value is either full booking details or a bare boolean flag;
      there is no third kind of value. */
  datatype Entry = Details(details: BookingDetails) | Flag(flag: bool)

  /** A room-by-room view of one booking, as the source's `Booking` record. */
  datatype Booking = Booking(
    roomId: string,
    date: string,
    isBooked: bool,
    bookingDetails: Option<BookingDetails>)

  /** The bookings of one date, keyed by room id. */
  type DayBookings = map<string, Entry>

  /** The booking store, keyed by `YYYY-MM-DD` date strings. */
  type BookingData = map<string, DayBookings>

  /** `entry && (typeof entry === 'object' || entry === true)`: an object is
      always truthy, a flag counts only when it is `true`. */
  predicate IsBooked(e: Entry) {
    e.Details? || e == Flag(true)
  }

  /** The room has a booked entry in the day's map; a missing entry or a
      `false` flag means available. */
  predicate IsRoomBooked(day: DayBookings, roomId: string) {
    roomId in day && IsBooked(day[roomId])
  }

  lemma EntryKinds(e: Entry)
    ensures e.Details? != e.Flag?
    ensures IsBooked(e) <==> !(e == Flag(false))
  {
  }
}
