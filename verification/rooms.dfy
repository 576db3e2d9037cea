/** The department's fixed room catalog and the lookups the views make on it. */
module Rooms {
  import opened Wrappers
  import opened Types
  import opened Strings

  /** Number of columns of the floor-plan grid. */
  const GridColumns := 6

  /** The ground-floor rooms, in catalog order. */
  const GroundFloorRooms: seq<Room> := [
    Room("lab101", "Lab 101", Lab, 30,
         ["Computers", "Projector", "Whiteboard", "Air Conditioning"],
         Ground, GridPosition(1, 1, 2, 2)),
    Room("lab102", "Lab 102", Lab, 25,
         ["Computers", "Network Equipment", "Projector"],
         Ground, GridPosition(1, 4, 2, 2)),
    Room("room103", "Room 103", Classroom, 40,
         ["Projector", "Whiteboard", "Audio System"],
         Ground, GridPosition(4, 1, 3, 2)),
    Room("meeting104", "Meeting 104", Meeting, 12,
         ["Projector", "Conference Table", "Video Conferencing"],
         Ground, GridPosition(4, 5, 1, 1)),
    Room("office105", "Office 105", Office, 4,
         ["Computers", "Printer"],
         Ground, GridPosition(6, 1, 1, 1)),
    Room("office106", "Office 106", Office, 4,
         ["Computers", "Scanner"],
         Ground, GridPosition(6, 3, 1, 1))
  ]

  /** The first-floor rooms, in catalog order. */
  const FirstFloorRooms: seq<Room> := [
    Room("lab201", "Lab 201", Lab, 35,
         ["High-end Computers", "Graphics Cards", "Projector", "3D Printers"],
         First, GridPosition(1, 1, 2, 2)),
    Room("lab202", "Lab 202", Lab, 28,
         ["Embedded Systems", "Microcontrollers", "Oscilloscopes"],
         First, GridPosition(1, 4, 2, 2)),
    Room("room203", "Room 203", Classroom, 50,
         ["Smart Board", "Projector", "Sound System", "Recording Equipment"],
         First, GridPosition(4, 1, 3, 2)),
    Room("meeting204", "Meeting 204", Meeting, 8,
         ["Video Wall", "Conference Table", "Wireless Display"],
         First, GridPosition(4, 5, 1, 1)),
    Room("office205", "Faculty 205", Office, 6,
         ["Workstations", "Research Equipment", "Library"],
         First, GridPosition(6, 1, 2, 1)),
    Room("office206", "Office 206", Office, 3,
         ["Computers", "Printer", "Server Access"],
         First, GridPosition(6, 4, 1, 1))
  ]

  /** `rooms`: the department's twelve rooms, ground floor first. */
  const Catalog: seq<Room> := GroundFloorRooms + FirstFloorRooms

  /** No two rooms share an id. */
  predicate DistinctIds(rooms: seq<Room>) {
    forall i, j :: 0 <= i < j < |rooms| ==> rooms[i].id != rooms[j].id
  }

  /** The room is bookable and has something in it. */
  predicate UsableRoom(r: Room) {
    r.capacity > 0 && |r.equipment| > 0
  }

  /** The room's block lies within the grid's columns. */
  predicate FitsGrid(r: Room) {
    1 <= r.grid.col && r.grid.width >= 1 && r.grid.col + r.grid.width - 1 <= GridColumns
  }

  /** Ids of all rooms in a list. */
  function Ids(rooms: seq<Room>): (ids: set<string>)
    ensures forall i :: 0 <= i < |rooms| ==> rooms[i].id in ids
    ensures |ids| <= |rooms|
  {
    if rooms == [] then {} else {rooms[0].id} + Ids(rooms[1..])
  }

  /** An id of the list belongs to one of its rooms. */
  lemma {:induction false} IdsMember(rooms: seq<Room>, id: string)
    requires id in Ids(rooms)
    ensures exists i :: 0 <= i < |rooms| && rooms[i].id == id
    decreases |rooms|
  {
    if rooms[0].id != id {
      IdsMember(rooms[1..], id);
      var i :| 0 <= i < |rooms[1..]| && rooms[1..][i].id == id;
      assert rooms[i + 1].id == id;
    }
  }

  /** An id carried by no room of the list is not among its ids. */
  lemma {:induction false} IdsNonMember(rooms: seq<Room>, id: string)
    requires forall i :: 0 <= i < |rooms| ==> rooms[i].id != id
    ensures id !in Ids(rooms)
    decreases |rooms|
  {
    if rooms != [] {
      IdsNonMember(rooms[1..], id);
    }
  }

  /** `rooms.find(r => r.id === id)`: the first room with that id, if any. */
  function FindRoom(rooms: seq<Room>, id: string): (r: Option<Room>)
    ensures r.Some? ==> r.value in rooms && r.value.id == id
    ensures r.None? <==> id !in Ids(rooms)
    ensures r.Some? ==> exists i :: 0 <= i < |rooms| && rooms[i] == r.value
                          && forall j :: 0 <= j < i ==> rooms[j].id != id
  {
    if rooms == [] then None
    else if rooms[0].id == id then Some(rooms[0])
    else
      var rest := FindRoom(rooms[1..], id);
      assert rest.Some? ==> exists i :: 0 <= i < |rooms[1..]| && rooms[1..][i] == rest.value
                              && forall j :: 0 <= j < i ==> rooms[1..][j].id != id;
      rest
  }

  /** With distinct ids, the room found for an id is the only one carrying it. */
  lemma FindRoomUnique(rooms: seq<Room>, r: Room)
    requires DistinctIds(rooms)
    requires r in rooms
    ensures FindRoom(rooms, r.id) == Some(r)
  {
    var k :| 0 <= k < |rooms| && rooms[k] == r;
    var found := FindRoom(rooms, r.id);
    var i :| 0 <= i < |rooms| && rooms[i] == found.value
             && forall j :: 0 <= j < i ==> rooms[j].id != r.id;
    assert !(k < i);
    assert !(i < k);
  }

  /** `rooms.filter(room => room.floor === floor)`, in catalog order. */
  function FloorRooms(rooms: seq<Room>, floor: Floor): (r: seq<Room>)
    ensures forall x :: x in r <==> x in rooms && x.floor == floor
    ensures |r| <= |rooms|
  {
    if rooms == [] then []
    else (if rooms[0].floor == floor then [rooms[0]] else []) + FloorRooms(rooms[1..], floor)
  }

  /** Filtering distributes over concatenation, so it keeps relative order. */
  lemma {:induction false} FloorRoomsAppend(a: seq<Room>, b: seq<Room>, floor: Floor)
    ensures FloorRooms(a + b, floor) == FloorRooms(a, floor) + FloorRooms(b, floor)
    decreases |a|
  {
    if a != [] {
      assert (a + b)[1..] == a[1..] + b;
      FloorRoomsAppend(a[1..], b, floor);
    } else {
      assert a + b == b;
    }
  }

  /** Every room is on exactly one of the two floors, so the two floor lists
      together hold the whole catalog. */
  lemma {:induction false} FloorsPartition(rooms: seq<Room>)
    ensures |FloorRooms(rooms, Ground)| + |FloorRooms(rooms, First)| == |rooms|
    decreases |rooms|
  {
    if rooms != [] {
      FloorsPartition(rooms[1..]);
    }
  }

  /** The invariants the catalog promises. */
  predicate WellFormedCatalog(rooms: seq<Room>) {
    && DistinctIds(rooms)
    && (forall r :: r in rooms ==> UsableRoom(r))
    && (forall r :: r in rooms ==> FitsGrid(r))
  }

  /** Catalog ids end in the floor digit, `0`, and the room's position on
      its floor: `...1 0 1` up to `...2 0 6`. */
  lemma CatalogIdDigits()
    ensures forall i :: 0 <= i < |Catalog| ==>
      && |Catalog[i].id| >= 3
      && Catalog[i].id[|Catalog[i].id| - 3] == (if i < 6 then '1' else '2')
      && Catalog[i].id[|Catalog[i].id| - 2] == '0'
      && Catalog[i].id[|Catalog[i].id| - 1] == DigitChar(i % 6 + 1)
  {
  }

  lemma CatalogIdsDistinct()
    ensures DistinctIds(Catalog)
  {
    CatalogIdDigits();
    forall i, j | 0 <= i < j < |Catalog|
      ensures Catalog[i].id != Catalog[j].id
    {
      if i < 6 <= j {
        assert Catalog[i].id[|Catalog[i].id| - 3] != Catalog[j].id[|Catalog[j].id| - 3];
      } else {
        assert Catalog[i].id[|Catalog[i].id| - 1] != Catalog[j].id[|Catalog[j].id| - 1];
      }
    }
  }

  /** Each catalog room has a place and equipment, and fits the grid. */
  lemma CatalogRoomsUsable()
    ensures forall i :: 0 <= i < |Catalog| ==> UsableRoom(Catalog[i]) && FitsGrid(Catalog[i])
  {
    forall i | 0 <= i < |Catalog|
      ensures UsableRoom(Catalog[i]) && FitsGrid(Catalog[i])
    {
    }
  }

  lemma CatalogWellFormed()
    ensures WellFormedCatalog(Catalog)
    ensures |Catalog| == 12
  {
    CatalogIdsDistinct();
    CatalogRoomsUsable();
    forall r | r in Catalog
      ensures UsableRoom(r) && FitsGrid(r)
    {
      var i :| 0 <= i < |Catalog| && Catalog[i] == r;
    }
  }

  /** A list whose rooms are all on one floor filters to itself on that floor
      and to nothing on the other. */
  lemma {:induction false} FloorRoomsUniform(rooms: seq<Room>, floor: Floor, other: Floor)
    requires forall r :: r in rooms ==> r.floor == floor
    requires other != floor
    ensures FloorRooms(rooms, floor) == rooms
    ensures FloorRooms(rooms, other) == []
    decreases |rooms|
  {
    if rooms != [] {
      assert rooms[0] in rooms;
      FloorRoomsUniform(rooms[1..], floor, other);
    }
  }

  lemma CatalogHalves()
    ensures Catalog == GroundFloorRooms + FirstFloorRooms
    ensures |GroundFloorRooms| == 6 && |FirstFloorRooms| == 6
    ensures forall r :: r in GroundFloorRooms ==> r.floor == Ground
    ensures forall r :: r in FirstFloorRooms ==> r.floor == First
  {
    assert forall i :: 0 <= i < 6 ==> GroundFloorRooms[i].floor == Ground;
    assert forall i :: 0 <= i < 6 ==> FirstFloorRooms[i].floor == First;
  }

  /** A ground-floor list followed by a first-floor list splits back into the two. */
  lemma FloorsOfHalves(ground: seq<Room>, first: seq<Room>)
    requires forall r :: r in ground ==> r.floor == Ground
    requires forall r :: r in first ==> r.floor == First
    ensures FloorRooms(ground + first, Ground) == ground
    ensures FloorRooms(ground + first, First) == first
  {
    FloorRoomsAppend(ground, first, Ground);
    FloorRoomsAppend(ground, first, First);
    FloorRoomsUniform(ground, Ground, First);
    FloorRoomsUniform(first, First, Ground);
  }

  lemma CatalogFloors()
    ensures FloorRooms(Catalog, Ground) == GroundFloorRooms
    ensures FloorRooms(Catalog, First) == FirstFloorRooms
    ensures |FloorRooms(Catalog, Ground)| == 6 && |FloorRooms(Catalog, First)| == 6
  {
    CatalogHalves();
    FloorsOfHalves(GroundFloorRooms, FirstFloorRooms);
  }


}
