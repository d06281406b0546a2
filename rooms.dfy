/** The room catalog: `Room` objects with a mutable availability flag, and
    `RoomService`, which owns the fixed list of rooms. The value-level
    functions over `RoomInfo` snapshots specify what the objects do. */
module Rooms {
  import opened Common
  import opened JavaString

  /** The fields of one room at one moment. */
  datatype RoomInfo = RoomInfo(id: int, roomType: string, pricePerNight: int, available: bool)

  /** The three rooms the catalog is seeded with. */
  function Seed(): (cat: seq<RoomInfo>)
    ensures |cat| == 3
    ensures forall k :: 0 <= k < |cat| ==> cat[k].id == k + 1 && cat[k].available
  {
    [RoomInfo(1, "Single", 100, true),
     RoomInfo(2, "Double", 150, true),
     RoomInfo(3, "Suite", 300, true)]
  }

  /** The position of the first room whose id is `id`, if there is one
      (a stream filter followed by `findFirst`). */
  function FindIndex(cat: seq<RoomInfo>, id: int): (r: Option<nat>)
    ensures r.None? <==> forall k :: 0 <= k < |cat| ==> cat[k].id != id
    ensures r.Some? ==> r.value < |cat| && cat[r.value].id == id &&
                        forall k :: 0 <= k < r.value ==> cat[k].id != id
    decreases |cat|
  {
    if cat == [] then None
    else if cat[0].id == id then Some(0)
    else match FindIndex(cat[1..], id)
      case None => None
      case Some(k) => Some(k + 1)
  }

  /** A room with this id exists and is free. */
  predicate Bookable(cat: seq<RoomInfo>, id: int): (r: bool)
    ensures r <==> exists k :: 0 <= k < |cat| && cat[k].id == id && cat[k].available &&
                             forall j :: 0 <= j < k ==> cat[j].id != id
  {
    match FindIndex(cat, id)
    case None => false
    case Some(i) => cat[i].available
  }

  /** `updateRoomAvailability` on a snapshot: the room found by the id gets
      the flag `b`; every other room, and every other field, is untouched;
      an unknown id changes nothing. */
  function SetAvailability(cat: seq<RoomInfo>, id: int, b: bool): (r: seq<RoomInfo>)
    ensures |r| == |cat|
    ensures FindIndex(cat, id).None? ==> r == cat
    ensures forall k :: 0 <= k < |cat| && FindIndex(cat, id) != Some(k) ==> r[k] == cat[k]
    ensures FindIndex(cat, id).Some? ==>
              var i := FindIndex(cat, id).value;
              r[i] == RoomInfo(cat[i].id, cat[i].roomType, cat[i].pricePerNight, b)
  {
    match FindIndex(cat, id)
    case None => cat
    case Some(i) => cat[i := cat[i].(available := b)]
  }

  /** Two catalogs whose rooms carry the same ids in the same order answer
      every lookup by id with the same position. */
  lemma {:induction false} SameIdsSameIndex(a: seq<RoomInfo>, b: seq<RoomInfo>, id: int)
    requires |a| == |b| && forall k :: 0 <= k < |a| ==> a[k].id == b[k].id
    ensures FindIndex(a, id) == FindIndex(b, id)
  {
    if a != [] && a[0].id != id {
      SameIdsSameIndex(a[1..], b[1..], id);
    }
  }

  /** Changing a flag never changes which room a lookup finds. */
  lemma SetAvailabilityKeepsLookup(cat: seq<RoomInfo>, id: int, b: bool, other: int)
    ensures FindIndex(SetAvailability(cat, id, b), other) == FindIndex(cat, other)
  {
    SameIdsSameIndex(SetAvailability(cat, id, b), cat, other);
  }

  /** Looking a room up right after setting its flag sees the new flag. */
  lemma LookupAfterSetAvailability(cat: seq<RoomInfo>, id: int, b: bool)
    requires FindIndex(cat, id).Some?
    ensures var after := SetAvailability(cat, id, b);
            Bookable(after, id) == b &&
            FindIndex(after, id) == FindIndex(cat, id)
  {
    SetAvailabilityKeepsLookup(cat, id, b, id);
  }

  /** Setting the same flag twice is the same as setting it once. */
  lemma SetAvailabilityIdempotent(cat: seq<RoomInfo>, id: int, b: bool)
    ensures SetAvailability(SetAvailability(cat, id, b), id, b) == SetAvailability(cat, id, b)
  {
    SetAvailabilityKeepsLookup(cat, id, b, id);
  }

  /** A room object. Only the availability flag ever changes. */
  class Room {
    const id: int
    const roomType: string
    const pricePerNight: int
    var available: bool

    /** A new room is available. */
    constructor (id: int, roomType: string, pricePerNight: int)
      ensures Info() == RoomInfo(id, roomType, pricePerNight, true)
    {
      this.id := id;
      this.roomType := roomType;
      this.pricePerNight := pricePerNight;
      available := true;
    }

    function Info(): (i: RoomInfo)
      reads this
    {
      RoomInfo(id, roomType, pricePerNight, available)
    }

    method SetAvailable(b: bool)
      modifies this
      ensures Info() == old(Info()).(available := b)
    {
      available := b;
    }
  }

  /** The current fields of a list of room objects. */
  function Snapshot(rs: seq<Room>): (s: seq<RoomInfo>)
    reads rs
    ensures |s| == |rs| && forall k :: 0 <= k < |rs| ==> s[k] == rs[k].Info()
  {
    seq(|rs|, k reads rs requires 0 <= k < |rs| => rs[k].Info())
  }

  /** The rooms of `rs` that are available and of type `t` ignoring case,
      in list order. */
  function FilterAvailable(rs: seq<Room>, t: string): (r: seq<Room>)
    reads rs
    ensures IsSubsequence(r, rs)
    ensures forall x :: x in r ==> x in rs && x.available && EqualsIgnoreCase(x.roomType, t)
    ensures forall x :: x in rs ==>
              multiset(r)[x] == if x.available && EqualsIgnoreCase(x.roomType, t) then multiset(rs)[x] else 0
    decreases |rs|
  {
    if rs == [] then []
    else
      var rest := FilterAvailable(rs[1..], t);
      assert rs == [rs[0]] + rs[1..];
      assert multiset(rs) == multiset{rs[0]} + multiset(rs[1..]);
      if rs[0].available && EqualsIgnoreCase(rs[0].roomType, t) then
        assert multiset([rs[0]] + rest) == multiset{rs[0]} + multiset(rest);
        [rs[0]] + rest
      else
        rest
  }

  /** The catalog. The list is filled once, by the constructor, and never
      changes afterwards; the rooms in it are distinct objects. */
  class RoomService {
    const rooms: seq<Room>

    ghost predicate Valid()
    {
      forall i, j :: 0 <= i < j < |rooms| ==> rooms[i] != rooms[j]
    }

    function Catalog(): (c: seq<RoomInfo>)
      reads rooms
    {
      Snapshot(rooms)
    }

    /** Seeds rooms 1/"Single"/100, 2/"Double"/150 and 3/"Suite"/300, all available. */
    constructor ()
      ensures Valid() && Catalog() == Seed()
      ensures fresh(set r | r in rooms)
    {
      var single := new Room(1, "Single", 100);
      var double := new Room(2, "Double", 150);
      var suite := new Room(3, "Suite", 300);
      rooms := [single, double, suite];
    }

    /** `searchRooms`: the available rooms whose type equals `t` ignoring
        case, in catalog order; empty when none match. */
    function SearchRooms(t: string): (r: seq<Room>)
      reads rooms
      ensures IsSubsequence(r, rooms)
      ensures forall k :: 0 <= k < |r| ==> r[k] in rooms && r[k].available && EqualsIgnoreCase(r[k].roomType, t)
      ensures forall k :: 0 <= k < |rooms| && rooms[k].available && EqualsIgnoreCase(rooms[k].roomType, t) ==> rooms[k] in r
      ensures forall x :: x in rooms ==>
                multiset(r)[x] == if x.available && EqualsIgnoreCase(x.roomType, t) then multiset(rooms)[x] else 0
      ensures r == [] <==> forall k :: 0 <= k < |rooms| ==> !(rooms[k].available && EqualsIgnoreCase(rooms[k].roomType, t))
    {
      FilterAvailable(rooms, t)
    }

    /** `getRoomById`: the first room with this id, or null. */
    function GetRoomById(id: int): (r: Room?)
      reads rooms
      ensures r == null <==> forall k :: 0 <= k < |rooms| ==> rooms[k].id != id
      ensures r != null ==> exists k :: 0 <= k < |rooms| && rooms[k] == r && r.id == id &&
                                        forall j :: 0 <= j < k ==> rooms[j].id != id
    {
      match FindIndex(Catalog(), id)
      case None => null
      case Some(i) => rooms[i]
    }

    /** `updateRoomAvailability`: sets the flag of the room found by id;
        a silent no-op for an unknown id. */
    method UpdateRoomAvailability(id: int, b: bool)
      requires Valid()
      modifies rooms
      ensures Catalog() == SetAvailability(old(Catalog()), id, b)
    {
      var room := GetRoomById(id);
      ghost var before := Catalog();
      if room != null {
        ghost var i := FindIndex(before, id).value;
        room.SetAvailable(b);
        assert forall k :: 0 <= k < |rooms| && k != i ==> rooms[k] != room;
      }
    }
  }
}
