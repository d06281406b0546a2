# Hotel reservation core, modelled in Dafny

This project models the in-memory booking logic of a small console hotel
reservation program (`Hotelreservation.java`). There are two pieces of state
that together act as a small state machine:

- the **room catalog** (`RoomService`). It holds a fixed list of `Room`
  objects. Each room has an id, a type label, a nightly rate and a mutable
  availability flag. The catalog can search rooms by type (available rooms
  only, type compared ignoring case), look a room up by id (first match or
  null) and set a room's flag (an unknown id is a silent no-op);
- the **reservation ledger** (`ReservationService`). It is an append-only
  list of `Reservation` records plus a reference to the catalog.
  `makeReservation` checks that the room exists and is free. It computes the
  nights from millisecond timestamps, by integer division, floored at one
  night, and prices the stay at nights × rate. It numbers the reservation
  `size + 1`, appends it and marks the room unavailable.
  `getReservationsByUserName` filters the ledger by guest name, ignoring case.

## Layout

- `common.dfy` (`Common`): `Option` (Java's null or a value) and `IsSubsequence`.
- `javalong.dfy` (`JavaLong`): Java `long`. It gives the range, wrap-around
  subtraction, division truncating toward zero and `Math.max`.
- `javastring.dfy` (`JavaString`): `equalsIgnoreCase` with ASCII case folding.
  The per-character test follows `regionMatches`: equal, else equal after
  upper-casing, else equal after upper- then lower-casing.
- `rooms.dfy` (`Rooms`): the `RoomInfo` snapshot of a room, plus the
  value-level specification of the catalog (`FindIndex`, `SetAvailability`,
  `Seed`). It also holds the `Room` and `RoomService` classes.
  `RoomService.rooms` is a `const seq<Room>`, because the list is filled once
  by the constructor and never changes. `Valid()` says its rooms are distinct
  objects. `Catalog()` is the snapshot of all room fields. Every state change
  is stated as a function of the old snapshot.
- `reservations.dfy` (`Reservations`): the `Reservation` record, `Nights`,
  the booking transition `Book` on snapshots, and the ledger filter `ByUser`.
  It also holds the ledger invariants, a run of many bookings (`Run`), and the
  `ReservationService` class. `MakeReservation` is proved to do exactly what
  `Book` does to the old catalog and ledger.
- `scenarios.dfy` (`Scenarios`): the seeded walk-through. It checks lookups of
  ids 1, 2, 3 and 999, and a two-night booking of room 1 priced 200. A second
  booking of the same room fails. The booking is found as "Alice" after being
  made as "alice". A same-day stay is charged one night. The walk-through is
  stated as lemmas on snapshots and as client methods on the objects.

Decisions:

- Timestamps are `Date.getTime()` values: milliseconds as Java `long`
  (`JavaLong.Long`). `checkOut - checkIn` wraps at 64 bits as in Java.
  Division truncates toward zero. `JavaLong.MaxOneOfQuotients` and
  `Reservations.NightsAsEuclideanQuotient` record that, without overflow,
  the result is the same as with Dafny's Euclidean division.
- Prices are exact integers (seed rates 100, 150, 300), not doubles.
- `getRoomById` and `updateRoomAvailability` use the *first* room with the
  id. Ids are unique in the seeded catalog; `getRoomById` nevertheless
  takes the first match, and the model follows it. Nothing here relies on
  ids being unique.
- Search and lookups are functions with `reads` clauses. They change no
  state. Calling them twice with no change in between gives the same result,
  because Dafny functions are deterministic.
- Search and lookup return the catalog's own `Room` objects, as in Java, so
  a later flag update is visible through them. The model changes those
  objects only through `UpdateRoomAvailability` (and `Room.SetAvailable`).

## Model

| member | source | states |
|---|---|---|
| `JavaLong.Wrap` | Hotelreservation.java:114 | the result is a `long`. It is the exact value when that fits, and congruent to it modulo 2^64 otherwise |
| `JavaLong.Sub` | Hotelreservation.java:114 | `long` subtraction equals exact subtraction whenever the exact difference fits, and otherwise wraps: the result is congruent to it modulo 2^64 |
| `JavaLong.Max` | Hotelreservation.java:115 | `Math.max`: the result is one of the two operands and at least both |
| `JavaLong.Div` | Hotelreservation.java:115 | `long` division by a positive divisor: the Euclidean quotient for a non-negative dividend; between the dividend and 0 for a negative one |
| `JavaLong.MaxOneOfQuotients` | Hotelreservation.java:115 | flooring the truncating quotient at 1 gives the same as flooring the Euclidean quotient at 1 |
| `JavaString.EqualsIgnoreCase` | Hotelreservation.java:87 | `equalsIgnoreCase`: a match implies equal lengths, and equal strings always match |
| `JavaString.CharEqualsIgnoreCaseIsLowerEquality` | Hotelreservation.java:87 | the three-step per-character ignore-case test is equality of lower-case forms |
| `JavaString.EqualsIgnoreCaseAt` | Hotelreservation.java:87 | `equalsIgnoreCase` holds iff the lengths agree and every position matches after lower-casing |
| `JavaString.EqualsIgnoreCaseReflexive` | Hotelreservation.java:126 | every string equals itself ignoring case |
| `JavaString.EqualsIgnoreCaseSymmetric` | Hotelreservation.java:126 | the ignore-case match does not depend on argument order |
| `JavaString.EqualsIgnoreCaseTransitive` | Hotelreservation.java:126 | the ignore-case match is transitive |
| `Rooms.Seed` | Hotelreservation.java:80-82 | three rooms, with ids 1, 2, 3 in order, all available |
| `Rooms.Bookable` | Hotelreservation.java:112-113 | the `room != null && room.isAvailable()` test: true iff the first room with the id exists and is available |
| `Rooms.FindIndex` | Hotelreservation.java:92 | None iff no room has the id; otherwise the position of a room with the id, and no earlier room has it (first match) |
| `Rooms.SetAvailability` | Hotelreservation.java:95-100 | the first room with the id gets flag `b` with its id, type and rate kept. Every other room is unchanged. An unknown id changes nothing |
| `Rooms.SameIdsSameIndex` | Hotelreservation.java:92 | lookup by id depends only on the sequence of ids |
| `Rooms.SetAvailabilityKeepsLookup` | Hotelreservation.java:95-100 | after a flag update, lookup of any id finds the same position as before |
| `Rooms.LookupAfterSetAvailability` | Hotelreservation.java:91-100 | looking up a known id right after setting its flag sees the new flag |
| `Rooms.SetAvailabilityIdempotent` | Hotelreservation.java:95-100 | setting the same flag twice equals setting it once |
| `Rooms.Room.constructor` | Hotelreservation.java:15-20 | a new room has the given id, type and rate and is available |
| `Rooms.Room.SetAvailable` | Hotelreservation.java:26 | only the flag changes, and it becomes `b` |
| `Rooms.FilterAvailable` | Hotelreservation.java:85-89 | the result is a subsequence of the list (catalog order). It holds only available rooms whose type matches ignoring case, and each matching room as often as in the list |
| `Rooms.RoomService.constructor` | Hotelreservation.java:79-83 | the catalog is rooms 1/"Single"/100, 2/"Double"/150, 3/"Suite"/300, all available. They are fresh, distinct objects |
| `Rooms.RoomService.SearchRooms` | Hotelreservation.java:85-89 | exactly the available rooms whose type matches ignoring case, in catalog order. The result is empty iff no room matches, never an error |
| `Rooms.RoomService.GetRoomById` | Hotelreservation.java:91-93 | null iff no room has the id; otherwise the first room in the catalog with that id |
| `Rooms.RoomService.UpdateRoomAvailability` | Hotelreservation.java:95-100 | the new catalog is `SetAvailability` of the old one. Only the first room with the id changes, and an unknown id is a no-op |
| `Reservations.Nights` | Hotelreservation.java:114-115 | the night count is at least 1 |
| `Reservations.NightsAsEuclideanQuotient` | Hotelreservation.java:114-115 | without overflow, nights = max(1, (checkOut − checkIn) div 86 400 000) |
| `Reservations.NightsOfNonPositiveStay` | Hotelreservation.java:114-115 | equal dates, or a check-out before the check-in, give exactly one night (when the difference fits) |
| `Reservations.NightsWhenSubtractionWraps` | Hotelreservation.java:114 | an overflowing difference wraps: checkIn = Long.MAX_VALUE with checkOut = Long.MIN_VALUE + 2^62 is charged as a positive stay of about 2^62 ms |
| `Reservations.NightsOfWholeDays` | Hotelreservation.java:114-115 | a stay of exactly n ≥ 1 days is n nights |
| `Reservations.Book` | Hotelreservation.java:111-123 | the `makeReservation` transition: null iff the room is not bookable, and then nothing changes; on success one reservation numbered size + 1 is appended and the catalog is `SetAvailability(roomId, false)` of the old one |
| `Reservations.BookFailsIffNotBookable` | Hotelreservation.java:111-123 | booking returns null iff the room is absent or unavailable. Then catalog and ledger are unchanged |
| `Reservations.BookAppendsOneReservation` | Hotelreservation.java:114-118 | success appends one reservation at the end: id = old size + 1, the given room, guest and dates, price = nights × the room's rate. Earlier entries are kept |
| `Reservations.BookMarksOnlyThatRoom` | Hotelreservation.java:119 | after success the booked room differs only in being unavailable; no other room changes |
| `Reservations.SecondBookingFails` | Hotelreservation.java:112-119 | right after a success, booking the same room again fails and changes nothing |
| `Reservations.ByUser` | Hotelreservation.java:125-127 | a subsequence of the ledger (ledger order). It holds exactly the entries whose guest name matches ignoring case, each as often as in the ledger |
| `Reservations.BookKeepsConsistent` | Hotelreservation.java:111-123 | booking keeps three facts: ids are 1-based positions, every booked room exists and is taken, and no room is booked twice |
| `Reservations.RunKeepsConsistent` | Hotelreservation.java:111-123 | any sequence of bookings keeps that consistency |
| `Reservations.AvailableCountAfterTaking` | Hotelreservation.java:119 | taking one available room lowers the number of available rooms by exactly one |
| `Reservations.RunConservesRooms` | Hotelreservation.java:111-123 | over any run, ledger size + available rooms stays constant |
| `Reservations.SeededRunNeverDoubleBooks` | Hotelreservation.java:79-123 | from the seeded catalog and an empty ledger, no room is booked twice. Ids are positions, booked rooms are taken, and there are at most three reservations |
| `Reservations.ReservationService.constructor` | Hotelreservation.java:107-109 | a new ledger is empty and refers to the given catalog |
| `Reservations.ReservationService.MakeReservation` | Hotelreservation.java:111-123 | the new catalog, new ledger and returned reservation (or null) are exactly those of `Book` on the old state. The ledger invariant is kept |
| `Reservations.ReservationService.GetReservationsByUserName` | Hotelreservation.java:125-127 | exactly the guest's reservations ignoring case, in ledger order, with their multiplicities |
| `Scenarios.SeedLookups` | Hotelreservation.java:79-93 | in the seeded catalog ids 1, 2, 3 are found at positions 0, 1, 2 and 999 is not found; all rooms start available |
| `Scenarios.SeedBookingScenario` | Hotelreservation.java:111-127 | the seeded booking of room 1 for "alice" over two days is reservation 1 priced 200, and only room 1 is taken. Rebooking fails. "Alice" finds it and "Bob" finds nothing |
| `Scenarios.SameDayScenario` | Hotelreservation.java:114-116 | a same-day booking of the suite costs one night, 300 |

## Left out

- The console menu loop in `HotelReservation.main`, with `Scanner` input and `System.out` output: this is I/O plumbing. `Scenarios.ClientBooking` plays one walk-through of it instead.
- Date parsing with `SimpleDateFormat`, and time-zone and daylight-saving effects on `Date.getTime()`: library behaviour. Check-in and check-out are given as `long` millisecond values.
- `PaymentService.processPayment`: it prints and always returns true, so there is no logic to model.
- The `toString` methods: display formatting only.
- IEEE double rounding of `pricePerNight` and `totalPrice`: prices are exact integers.
- Unicode case folding in `equalsIgnoreCase`: only ASCII letters are folded.
- Null arguments (a null type, name or date, which would make the Java code return false or throw): the front end never passes null.
- The 32-bit `int` of ids and of `reservations.size() + 1`: ids are unbounded integers, since a ledger of 2^31 entries is out of reach.
- JavaLong.Div: for a negative dividend the contract only puts the quotient between the dividend and 0. It does not give the exact truncated value. `MaxOneOfQuotients` shows that this bound is all the night count needs.
- Reservations.NightsOfNonPositiveStay: requires the difference to fit in a `long`. Without that, the subtraction wraps, as `NightsWhenSubtractionWraps` shows.
- Reservations.SeededRunNeverDoubleBooks: covers runs that only book. A direct `updateRoomAvailability(id, true)` can free a booked room, and the Java code allows that.
