/** The reservation ledger: the `Reservation` record, the nights and price
    computation, the booking transition as a function on snapshots, and
    `ReservationService`, which performs it in place. */
module Reservations {
  import opened Common
  import opened JavaLong
  import opened JavaString
  import opened Rooms

  /** 1000 * 60 * 60 * 24, computed in `int` without overflow. */
  const MILLIS_PER_DAY: int := 86_400_000

  /** Check-in and check-out are `Date.getTime()` values: milliseconds as `long`. */
  datatype Reservation = Reservation(id: int, roomId: int, userName: string,
                                     checkIn: Long, checkOut: Long, totalPrice: int)

  /** Whole days between the two instants (the `long` difference divided
      with truncation), but never fewer than one night. */
  function Nights(checkIn: Long, checkOut: Long): (n: Long)
    ensures n >= 1
  {
    Max(1, Div(Sub(checkOut, checkIn), MILLIS_PER_DAY))
  }

  /** Without overflow the night count is the Euclidean quotient floored at
      one: truncation and flooring differ only where both are at most zero. */
  lemma NightsAsEuclideanQuotient(checkIn: Long, checkOut: Long)
    requires MIN_LONG <= checkOut - checkIn <= MAX_LONG
    ensures var q := (checkOut - checkIn) / MILLIS_PER_DAY;
            Nights(checkIn, checkOut) == if q >= 1 then q else 1
  {
    MaxOneOfQuotients(checkOut - checkIn, MILLIS_PER_DAY);
  }

  /** Equal dates, or a check-out before the check-in, charge one night,
      as long as the difference fits in a `long`. */
  lemma NightsOfNonPositiveStay(checkIn: Long, checkOut: Long)
    requires MIN_LONG <= checkOut - checkIn <= 0
    ensures Nights(checkIn, checkOut) == 1
  {
  }

  /** When the difference does not fit, the `long` subtraction wraps: a
      check-out far before the check-in can come out as a long stay. */
  lemma NightsWhenSubtractionWraps()
    ensures Nights(MAX_LONG, MIN_LONG + 0x4000_0000_0000_0000) == (0x4000_0000_0000_0001) / MILLIS_PER_DAY
  {
  }

  /** A stay of exactly `n` days, for `n` at least one, is `n` nights. */
  lemma NightsOfWholeDays(checkIn: Long, n: int)
    requires n >= 1 && n * MILLIS_PER_DAY <= MAX_LONG && checkIn + n * MILLIS_PER_DAY <= MAX_LONG
    ensures Nights(checkIn, checkIn + n * MILLIS_PER_DAY) == n
  {
    var diff := n * MILLIS_PER_DAY;
    assert diff / MILLIS_PER_DAY == n;
    NightsAsEuclideanQuotient(checkIn, checkIn + diff);
  }

  /** The result of one `makeReservation` call on snapshots: the new
      catalog, the new ledger, and the reservation made (None for null). */
  datatype BookOutcome = BookOutcome(catalog: seq<RoomInfo>, ledger: seq<Reservation>, booked: Option<Reservation>)

  function Book(cat: seq<RoomInfo>, ledger: seq<Reservation>, roomId: int, userName: string,
                checkIn: Long, checkOut: Long): (o: BookOutcome)
    ensures o.booked.None? <==> !Bookable(cat, roomId)
    ensures o.booked.None? ==> o.catalog == cat && o.ledger == ledger
    ensures o.booked.Some? ==>
              o.ledger == ledger + [o.booked.value] && o.booked.value.id == |ledger| + 1 &&
              o.catalog == SetAvailability(cat, roomId, false)
  {
    match FindIndex(cat, roomId)
    case None => BookOutcome(cat, ledger, None)
    case Some(i) =>
      if !cat[i].available then BookOutcome(cat, ledger, None)
      else
        var res := Reservation(|ledger| + 1, roomId, userName, checkIn, checkOut,
                               Nights(checkIn, checkOut) * cat[i].pricePerNight);
        BookOutcome(SetAvailability(cat, roomId, false), ledger + [res], Some(res))
  }

  /** Booking fails exactly when the room is unknown or taken, and a failed
      booking leaves catalog and ledger as they were. */
  lemma BookFailsIffNotBookable(cat: seq<RoomInfo>, ledger: seq<Reservation>, roomId: int,
                                userName: string, checkIn: Long, checkOut: Long)
    ensures var o := Book(cat, ledger, roomId, userName, checkIn, checkOut);
            (o.booked.None? <==> !Bookable(cat, roomId)) &&
            (o.booked.None? ==> o.catalog == cat && o.ledger == ledger)
  {
  }

  /** A successful booking appends exactly one reservation, numbered one past
      the old ledger size, for the given room and guest, priced at nights
      times the nightly rate of the room found; earlier entries stay. */
  lemma BookAppendsOneReservation(cat: seq<RoomInfo>, ledger: seq<Reservation>, roomId: int,
                                  userName: string, checkIn: Long, checkOut: Long)
    requires Bookable(cat, roomId)
    ensures var o := Book(cat, ledger, roomId, userName, checkIn, checkOut);
            var room := cat[FindIndex(cat, roomId).value];
            o.booked.Some? &&
            o.ledger == ledger + [o.booked.value] &&
            o.booked.value.id == |ledger| + 1 &&
            o.booked.value.roomId == roomId && o.booked.value.userName == userName &&
            o.booked.value.checkIn == checkIn && o.booked.value.checkOut == checkOut &&
            o.booked.value.totalPrice == Nights(checkIn, checkOut) * room.pricePerNight &&
            (room.pricePerNight >= 0 ==> o.booked.value.totalPrice >= room.pricePerNight)
  {
    var n := Nights(checkIn, checkOut);
    var p := cat[FindIndex(cat, roomId).value].pricePerNight;
    if p >= 0 {
      MulMonotone(p, n, 1);
    }
  }

  /** After a successful booking the booked room is unavailable and every
      other room is exactly as before. */
  lemma BookMarksOnlyThatRoom(cat: seq<RoomInfo>, ledger: seq<Reservation>, roomId: int,
                              userName: string, checkIn: Long, checkOut: Long)
    requires Bookable(cat, roomId)
    ensures var o := Book(cat, ledger, roomId, userName, checkIn, checkOut);
            var i := FindIndex(cat, roomId).value;
            |o.catalog| == |cat| &&
            o.catalog[i] == cat[i].(available := false) &&
            (forall k :: 0 <= k < |cat| && k != i ==> o.catalog[k] == cat[k]) &&
            !Bookable(o.catalog, roomId)
  {
    LookupAfterSetAvailability(cat, roomId, false);
  }

  /** Booking a room a second time straight after a success fails, whoever
      asks and for whatever dates. */
  lemma SecondBookingFails(cat: seq<RoomInfo>, ledger: seq<Reservation>, roomId: int,
                           userName: string, checkIn: Long, checkOut: Long,
                           userName2: string, checkIn2: Long, checkOut2: Long)
    requires Book(cat, ledger, roomId, userName, checkIn, checkOut).booked.Some?
    ensures var o := Book(cat, ledger, roomId, userName, checkIn, checkOut);
            var o2 := Book(o.catalog, o.ledger, roomId, userName2, checkIn2, checkOut2);
            o2.booked.None? && o2.catalog == o.catalog && o2.ledger == o.ledger
  {
    LookupAfterSetAvailability(cat, roomId, false);
  }

  /** `getReservationsByUserName`: the entries booked under `name` ignoring
      case, in ledger order, each as often as it occurs in the ledger. */
  function ByUser(ledger: seq<Reservation>, name: string): (r: seq<Reservation>)
    ensures IsSubsequence(r, ledger)
    ensures forall x :: x in r <==> x in ledger && EqualsIgnoreCase(x.userName, name)
    ensures forall x :: multiset(r)[x] == if EqualsIgnoreCase(x.userName, name) then multiset(ledger)[x] else 0
    decreases |ledger|
  {
    if ledger == [] then []
    else
      var rest := ByUser(ledger[1..], name);
      assert ledger == [ledger[0]] + ledger[1..];
      assert multiset(ledger) == multiset{ledger[0]} + multiset(ledger[1..]);
      if EqualsIgnoreCase(ledger[0].userName, name) then
        assert multiset([ledger[0]] + rest) == multiset{ledger[0]} + multiset(rest);
        [ledger[0]] + rest
      else
        rest
  }

  /** Reservation i (from 0) has id i + 1. */
  ghost predicate IdsArePositions(ledger: seq<Reservation>)
  {
    forall i :: 0 <= i < |ledger| ==> ledger[i].id == i + 1
  }

  /** Every booked room exists in the catalog and is unavailable. */
  ghost predicate BookedRoomsTaken(cat: seq<RoomInfo>, ledger: seq<Reservation>)
  {
    forall i :: 0 <= i < |ledger| ==> FindIndex(cat, ledger[i].roomId).Some? && !Bookable(cat, ledger[i].roomId)
  }

  /** No room is booked twice. */
  ghost predicate NoDoubleBooking(ledger: seq<Reservation>)
  {
    forall i, j :: 0 <= i < j < |ledger| ==> ledger[i].roomId != ledger[j].roomId
  }

  ghost predicate Consistent(cat: seq<RoomInfo>, ledger: seq<Reservation>)
  {
    IdsArePositions(ledger) && BookedRoomsTaken(cat, ledger) && NoDoubleBooking(ledger)
  }

  /** Every successful or failed booking keeps the ledger consistent with
      the catalog. */
  lemma BookKeepsConsistent(cat: seq<RoomInfo>, ledger: seq<Reservation>, roomId: int,
                            userName: string, checkIn: Long, checkOut: Long)
    requires Consistent(cat, ledger)
    ensures var o := Book(cat, ledger, roomId, userName, checkIn, checkOut);
            Consistent(o.catalog, o.ledger)
  {
    var o := Book(cat, ledger, roomId, userName, checkIn, checkOut);
    if o.booked.Some? {
      forall i | 0 <= i < |o.ledger|
        ensures FindIndex(o.catalog, o.ledger[i].roomId).Some? && !Bookable(o.catalog, o.ledger[i].roomId)
      {
        SetAvailabilityKeepsLookup(cat, roomId, false, o.ledger[i].roomId);
        LookupAfterSetAvailability(cat, roomId, false);
      }
    }
  }

  /** One request of a caller that only books. */
  datatype Request = Request(roomId: int, userName: string, checkIn: Long, checkOut: Long)

  /** The catalog and ledger after serving the requests in order. */
  ghost function Run(cat: seq<RoomInfo>, ledger: seq<Reservation>, reqs: seq<Request>): (seq<RoomInfo>, seq<Reservation>)
    decreases |reqs|
  {
    if reqs == [] then (cat, ledger)
    else
      var q := reqs[0];
      var o := Book(cat, ledger, q.roomId, q.userName, q.checkIn, q.checkOut);
      Run(o.catalog, o.ledger, reqs[1..])
  }

  /** Any sequence of bookings keeps the ledger consistent. */
  lemma {:induction false} RunKeepsConsistent(cat: seq<RoomInfo>, ledger: seq<Reservation>, reqs: seq<Request>)
    requires Consistent(cat, ledger)
    ensures Consistent(Run(cat, ledger, reqs).0, Run(cat, ledger, reqs).1)
    decreases |reqs|
  {
    if reqs != [] {
      var q := reqs[0];
      var o := Book(cat, ledger, q.roomId, q.userName, q.checkIn, q.checkOut);
      BookKeepsConsistent(cat, ledger, q.roomId, q.userName, q.checkIn, q.checkOut);
      RunKeepsConsistent(o.catalog, o.ledger, reqs[1..]);
    }
  }

  /** The number of available rooms. */
  function AvailableCount(cat: seq<RoomInfo>): (n: nat)
    ensures n <= |cat|
    decreases |cat|
  {
    if cat == [] then 0 else (if cat[0].available then 1 else 0) + AvailableCount(cat[1..])
  }

  /** Taking one available room lowers the count by exactly one. */
  lemma {:induction false} AvailableCountAfterTaking(cat: seq<RoomInfo>, i: nat)
    requires i < |cat| && cat[i].available
    ensures AvailableCount(cat[i := cat[i].(available := false)]) == AvailableCount(cat) - 1
    decreases |cat|
  {
    var after := cat[i := cat[i].(available := false)];
    if i == 0 {
      assert after[1..] == cat[1..];
    } else {
      assert after[1..] == cat[1..][i - 1 := cat[i].(available := false)];
      AvailableCountAfterTaking(cat[1..], i - 1);
    }
  }

  /** Every successful booking uses up one available room; a failed one
      uses none. */
  lemma {:induction false} RunConservesRooms(cat: seq<RoomInfo>, ledger: seq<Reservation>, reqs: seq<Request>)
    ensures |Run(cat, ledger, reqs).1| + AvailableCount(Run(cat, ledger, reqs).0) == |ledger| + AvailableCount(cat)
    decreases |reqs|
  {
    if reqs != [] {
      var q := reqs[0];
      var o := Book(cat, ledger, q.roomId, q.userName, q.checkIn, q.checkOut);
      if o.booked.Some? {
        var i := FindIndex(cat, q.roomId).value;
        assert o.catalog == cat[i := cat[i].(available := false)];
        AvailableCountAfterTaking(cat, i);
      }
      RunConservesRooms(o.catalog, o.ledger, reqs[1..]);
    }
  }

  /** From the seeded catalog and an empty ledger, whatever is asked for, no
      room is booked twice, reservation ids are their 1-based positions,
      every booked room is taken, and there are at most three reservations. */
  lemma SeededRunNeverDoubleBooks(reqs: seq<Request>)
    ensures var (cat, ledger) := Run(Seed(), [], reqs);
            NoDoubleBooking(ledger) && IdsArePositions(ledger) && BookedRoomsTaken(cat, ledger) &&
            |ledger| <= |Seed()|
  {
    RunKeepsConsistent(Seed(), [], reqs);
    RunConservesRooms(Seed(), [], reqs);
    assert AvailableCount(Seed()) == 3;
  }

  /** The ledger, holding a reference to the catalog it books against. */
  class ReservationService {
    var reservations: seq<Reservation>
    const roomService: RoomService

    ghost predicate Valid()
      reads this
    {
      roomService.Valid() && IdsArePositions(reservations)
    }

    constructor (roomService: RoomService)
      requires roomService.Valid()
      ensures Valid() && this.roomService == roomService && reservations == []
    {
      this.roomService := roomService;
      reservations := [];
    }

    /** `makeReservation`: performs `Book` on the live catalog and ledger. */
    method MakeReservation(roomId: int, userName: string, checkIn: Long, checkOut: Long)
      returns (r: Option<Reservation>)
      requires Valid()
      modifies this, roomService.rooms
      ensures Valid()
      ensures var o := Book(old(roomService.Catalog()), old(reservations), roomId, userName, checkIn, checkOut);
              roomService.Catalog() == o.catalog && reservations == o.ledger && r == o.booked
    {
      var room := roomService.GetRoomById(roomId);
      if room != null && room.available {
        var nights := Nights(checkIn, checkOut);
        var totalPrice := nights * room.pricePerNight;
        var reservation := Reservation(|reservations| + 1, roomId, userName, checkIn, checkOut, totalPrice);
        reservations := reservations + [reservation];
        roomService.UpdateRoomAvailability(roomId, false);
        r := Some(reservation);
      } else {
        r := None;
      }
    }

    /** `getReservationsByUserName`: the guest's reservations in booking order. */
    function GetReservationsByUserName(name: string): (r: seq<Reservation>)
      reads this
      ensures IsSubsequence(r, reservations)
      ensures forall x :: x in r <==> x in reservations && EqualsIgnoreCase(x.userName, name)
      ensures forall x :: multiset(r)[x] == if EqualsIgnoreCase(x.userName, name) then multiset(reservations)[x] else 0
    {
      ByUser(reservations, name)
    }
  }
}
