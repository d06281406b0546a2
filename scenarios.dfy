/** The booking walk-through of the console front end, stated on the
    seeded catalog: on snapshots as lemmas, and on the objects as a client. */
module Scenarios {
  import opened Common
  import opened JavaString
  import opened Rooms
  import opened Reservations

  /** 2024-01-01 and 2024-01-03 at midnight UTC, in milliseconds. */
  const JAN_1: int := 1_704_067_200_000
  const JAN_3: int := 1_704_240_000_000

  /** Lookup by id in the seeded catalog finds rooms 1, 2 and 3 at their
      positions, and nothing for 999. */
  lemma SeedLookups()
    ensures FindIndex(Seed(), 1) == Some(0) && FindIndex(Seed(), 2) == Some(1)
    ensures FindIndex(Seed(), 3) == Some(2) && FindIndex(Seed(), 999) == None
    ensures forall k :: 0 <= k < |Seed()| ==> Seed()[k].available
  {
  }

  /** Booking room 1 for two nights costs 200 and takes the room; booking it
      again fails; the reservation is found under any casing of the name. */
  lemma SeedBookingScenario()
    ensures var o := Book(Seed(), [], 1, "alice", JAN_1, JAN_3);
            o.booked == Some(Reservation(1, 1, "alice", JAN_1, JAN_3, 200)) &&
            !Bookable(o.catalog, 1) && Bookable(o.catalog, 2) && Bookable(o.catalog, 3) &&
            Book(o.catalog, o.ledger, 1, "bob", JAN_1, JAN_3).booked.None? &&
            ByUser(o.ledger, "Alice") == o.ledger &&
            ByUser(o.ledger, "Bob") == []
  {
    NightsOfWholeDays(JAN_1, 2);
    BookMarksOnlyThatRoom(Seed(), [], 1, "alice", JAN_1, JAN_3);
    var o := Book(Seed(), [], 1, "alice", JAN_1, JAN_3);
    SecondBookingFails(Seed(), [], 1, "alice", JAN_1, JAN_3, "bob", JAN_1, JAN_3);
    EqualsIgnoreCaseAt("alice", "Alice");
    EqualsIgnoreCaseAt("alice", "Bob");
  }

  /** Same-day check-in and check-out is charged one night. */
  lemma SameDayScenario()
    ensures Book(Seed(), [], 3, "carol", JAN_1, JAN_1).booked.value.totalPrice == 300
  {
    NightsOfNonPositiveStay(JAN_1, JAN_1);
  }

  /** Only the single room's type equals "single" ignoring case. */
  lemma SeedTypesMatching()
    ensures EqualsIgnoreCase("Single", "single")
    ensures !EqualsIgnoreCase("Double", "single") && !EqualsIgnoreCase("Suite", "single")
  {
    EqualsIgnoreCaseAt("Single", "single");
    EqualsIgnoreCaseAt("Double", "single");
  }

  /** Searching the fresh catalog ignores case. */
  method ClientSearch()
  {
    var rooms := new RoomService();
    assert rooms.Catalog() == Seed();
    assert rooms.rooms[0].Info() == Seed()[0] && rooms.rooms[1].Info() == Seed()[1] && rooms.rooms[2].Info() == Seed()[2];
    SeedTypesMatching();
    var singles := rooms.SearchRooms("single");
    assert rooms.rooms[0] in singles;
    assert rooms.rooms[1] !in singles;
    assert rooms.rooms[2] !in singles;
  }

  /** Lookup of an unknown id and search for an unknown type find nothing. */
  method ClientNoMatch()
  {
    var rooms := new RoomService();
    assert rooms.Catalog() == Seed();
    assert rooms.rooms[0].Info() == Seed()[0] && rooms.rooms[1].Info() == Seed()[1] && rooms.rooms[2].Info() == Seed()[2];
    var none := rooms.SearchRooms("Penthouse");
    assert none == [];
    assert rooms.GetRoomById(999) == null;
  }

  /** The booking walk-through against the objects. */
  method ClientBooking()
  {
    var rooms := new RoomService();
    var ledger := new ReservationService(rooms);
    ghost var o := Book(Seed(), [], 1, "alice", JAN_1, JAN_3);
    ghost var o2 := Book(o.catalog, o.ledger, 1, "bob", JAN_1, JAN_3);
    var r := ledger.MakeReservation(1, "alice", JAN_1, JAN_3);
    assert ledger.reservations == o.ledger && r == o.booked;
    var again := ledger.MakeReservation(1, "bob", JAN_1, JAN_3);
    assert ledger.reservations == o2.ledger && again == o2.booked;
    var mine := ledger.GetReservationsByUserName("Alice");
    var bobs := ledger.GetReservationsByUserName("Bob");
    assert r == Some(Reservation(1, 1, "alice", JAN_1, JAN_3, 200)) && again.None? && mine == [r.value] && bobs == [] by {
      SeedBookingScenario();
    }
  }
}
