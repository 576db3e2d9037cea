/** The floor-plan view: the rooms of one floor, their per-floor counts and
    the booked/details state handed to each room block. */
module FloorPlan {
  import opened Wrappers
  import opened Types
  import opened Rooms
  import opened Store

  /** How many rooms of the list have a booked entry in the day's map. */
  function CountBooked(rooms: seq<Room>, day: DayBookings): (n: nat)
    ensures n <= |rooms|
  {
    if rooms == [] then 0
    else (if IsRoomBooked(day, rooms[0].id) then 1 else 0) + CountBooked(rooms[1..], day)
  }

  /** Counting distributes over concatenation of room lists. */
  lemma {:induction false} CountBookedAppend(a: seq<Room>, b: seq<Room>, day: DayBookings)
    ensures CountBooked(a + b, day) == CountBooked(a, day) + CountBooked(b, day)
    decreases |a|
  {
    if a == [] {
      assert a + b == b;
    } else {
      assert (a + b)[1..] == a[1..] + b;
      CountBookedAppend(a[1..], b, day);
    }
  }

  /** `getFloorStats`: total is the number of rooms on the floor, booked the
      number of those with an object or `true` entry. */
  function FloorStats(rooms: seq<Room>, floor: Floor, day: DayBookings): (s: Stats)
    ensures s.total == |FloorRooms(rooms, floor)|
    ensures s.booked == CountBooked(FloorRooms(rooms, floor), day)
    ensures 0 <= s.booked <= s.total
    ensures s.available == s.total - s.booked && s.available >= 0
  {
    var floorRooms := FloorRooms(rooms, floor);
    var booked := CountBooked(floorRooms, day);
    Stats(|floorRooms|, booked, |floorRooms| - booked)
  }

  /** What one room block is given: the room, whether it shows as booked and
      the details shown in its tooltip. */
  datatype Block = Block(room: Room, isBooked: bool, details: Option<BookingDetails>)

  /** The block for one room: booked for an object or `true`, details only for an object. */
  function BlockFor(room: Room, day: DayBookings): (b: Block)
    ensures b.room == room
    ensures b.isBooked <==> IsRoomBooked(day, room.id)
    ensures b.details.Some? <==> room.id in day && day[room.id].Details?
    ensures b.details.Some? ==> day[room.id] == Details(b.details.value)
  {
    var booked := IsRoomBooked(day, room.id);
    var details := if room.id in day && day[room.id].Details? then Some(day[room.id].details) else None;
    Block(room, booked, details)
  }

  function BlocksOf(rooms: seq<Room>, day: DayBookings): (blocks: seq<Block>)
    ensures |blocks| == |rooms|
    ensures forall i :: 0 <= i < |rooms| ==> blocks[i] == BlockFor(rooms[i], day)
  {
    if rooms == [] then [] else [BlockFor(rooms[0], day)] + BlocksOf(rooms[1..], day)
  }

  /** The blocks drawn for a floor, one per room of that floor in catalog order. */
  function RoomBlocks(rooms: seq<Room>, floor: Floor, day: DayBookings): (blocks: seq<Block>)
    ensures |blocks| == |FloorRooms(rooms, floor)|
    ensures forall i :: 0 <= i < |blocks| ==> blocks[i].room == FloorRooms(rooms, floor)[i]
    ensures forall i :: 0 <= i < |blocks| ==> blocks[i].room.floor == floor
    ensures forall i :: 0 <= i < |blocks| ==>
      (blocks[i].isBooked <==> IsRoomBooked(day, blocks[i].room.id))
  {
    var floorRooms := FloorRooms(rooms, floor);
    assert forall i :: 0 <= i < |floorRooms| ==> floorRooms[i] in floorRooms;
    BlocksOf(floorRooms, day)
  }

  /** How many blocks show as booked. */
  function CountBookedBlocks(blocks: seq<Block>): (n: nat)
    ensures n <= |blocks|
  {
    if blocks == [] then 0
    else (if blocks[0].isBooked then 1 else 0) + CountBookedBlocks(blocks[1..])
  }

  lemma {:induction false} CountBlocksOf(rooms: seq<Room>, day: DayBookings)
    ensures CountBookedBlocks(BlocksOf(rooms, day)) == CountBooked(rooms, day)
    decreases |rooms|
  {
    if rooms != [] {
      var blocks := BlocksOf(rooms, day);
      assert blocks[1..] == BlocksOf(rooms[1..], day);
      CountBlocksOf(rooms[1..], day);
    }
  }

  /** The floor's booked count equals the number of blocks drawn as booked. */
  lemma StatsMatchBlocks(rooms: seq<Room>, floor: Floor, day: DayBookings)
    ensures FloorStats(rooms, floor, day).booked == CountBookedBlocks(RoomBlocks(rooms, floor, day))
    ensures FloorStats(rooms, floor, day).booked <= FloorStats(rooms, floor, day).total
  {
    CountBlocksOf(FloorRooms(rooms, floor), day);
  }

  lemma CountBookedCons(r: Room, rest: seq<Room>, day: DayBookings)
    ensures CountBooked([r] + rest, day) == (if IsRoomBooked(day, r.id) then 1 else 0) + CountBooked(rest, day)
  {
    assert ([r] + rest)[1..] == rest;
  }

  /** Booked counts of the two floors add up to the count over all rooms. */
  lemma {:induction false} FloorCountsAddUp(rooms: seq<Room>, day: DayBookings)
    ensures CountBooked(FloorRooms(rooms, Ground), day) + CountBooked(FloorRooms(rooms, First), day)
         == CountBooked(rooms, day)
    decreases |rooms|
  {
    if rooms != [] {
      var r, rest := rooms[0], rooms[1..];
      FloorCountsAddUp(rest, day);
      var ground, first := FloorRooms(rest, Ground), FloorRooms(rest, First);
      if r.floor == Ground {
        assert FloorRooms(rooms, Ground) == [r] + ground;
        assert FloorRooms(rooms, First) == [] + first == first;
        CountBookedCons(r, ground, day);
      } else {
        assert FloorRooms(rooms, First) == [r] + first;
        assert FloorRooms(rooms, Ground) == [] + ground == ground;
        CountBookedCons(r, first, day);
      }
    }
  }

  /** Dropping the first room keeps ids distinct, and the first id does not recur. */
  lemma DistinctIdsTail(rooms: seq<Room>)
    requires DistinctIds(rooms) && rooms != []
    ensures DistinctIds(rooms[1..])
    ensures rooms[0].id !in Ids(rooms[1..])
  {
    var rest := rooms[1..];
    forall i, j | 0 <= i < j < |rest|
      ensures rest[i].id != rest[j].id
    {
      assert rest[i] == rooms[i + 1] && rest[j] == rooms[j + 1];
    }
    assert forall j :: 0 <= j < |rest| ==> rest[j] == rooms[j + 1];
    IdsNonMember(rest, rooms[0].id);
  }

  /** Intersecting with a set that gains one new element gains at most that element. */
  lemma IntersectAddOne<T>(b: set<T>, x: T, others: set<T>)
    requires x !in others
    ensures |b * ({x} + others)| == (if x in b then 1 else 0) + |b * others|
  {
    var here := b * {x};
    assert b * ({x} + others) == here + b * others;
    assert here !! b * others;
    if x in b {
      assert here == {x};
    } else {
      assert here == {};
    }
  }

  /** With distinct room ids, counting rooms is counting their booked ids. */
  lemma {:induction false} CountBookedIsCardinality(rooms: seq<Room>, day: DayBookings)
    requires DistinctIds(rooms)
    ensures CountBooked(rooms, day) == |BookedRoomIds(day) * Ids(rooms)|
    decreases |rooms|
  {
    if rooms != [] {
      var rest := rooms[1..];
      DistinctIdsTail(rooms);
      CountBookedIsCardinality(rest, day);
      assert Ids(rooms) == {rooms[0].id} + Ids(rest);
      IntersectAddOne(BookedRoomIds(day), rooms[0].id, Ids(rest));
    }
  }

  /** When every key of the day is a catalog room and ids are distinct, the
      floors' booked counts together equal the admin screen's booked count. */
  lemma FloorsAgreeWithBookingStats(rooms: seq<Room>, data: BookingData, date: string)
    requires DistinctIds(rooms)
    requires CurrentBookings(data, date).Keys <= Ids(rooms)
    ensures FloorStats(rooms, Ground, CurrentBookings(data, date)).booked
          + FloorStats(rooms, First, CurrentBookings(data, date)).booked
         == BookingStats(data, date, rooms).booked
  {
    var day := CurrentBookings(data, date);
    FloorCountsAddUp(rooms, day);
    CountBookedIsCardinality(rooms, day);
    assert BookedRoomIds(day) * Ids(rooms) == BookedRoomIds(day);
  }
}
