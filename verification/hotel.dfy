/** The hotel's booking book: a fixed list of rooms, each booked or free, and
    the list of reservations that hold them. A reservation points at the very
    room it holds; here that pointer is the room's position in the list, which
    never changes shape. Room numbers are not assumed to be unique. */
module Hotel {
  import opened Wrappers
  import Text

  datatype Room = Room(number: int, category: string, price: real, isBooked: bool)

  /** `room` is the position of the held room in the hotel's room list. */
  datatype Reservation = Reservation(customerName: string, room: nat, days: int, totalAmount: real)

  datatype Hotel = Hotel(rooms: seq<Room>, reservations: seq<Reservation>)

  /** The outcome of a booking or a cancellation: whether it took effect, and
      the hotel afterwards. */
  datatype Change = Change(ok: bool, hotel: Hotel)

  /** A room starts out free. */
  function NewRoom(number: int, category: string, price: real): (r: Room)
    ensures !r.isBooked
    ensures r.number == number && r.category == category && r.price == price
  {
    Room(number, category, price, false)
  }

  /** A reservation for `days` days of the room at position `i`, charged the
      room's nightly price for every day. */
  function NewReservation(name: string, rooms: seq<Room>, i: nat, days: int): (r: Reservation)
    requires i < |rooms|
    ensures r.customerName == name && r.room == i && r.days == days
    ensures r.totalAmount == rooms[i].price * days as real
  {
    Reservation(name, i, days, rooms[i].price * days as real)
  }

  /** The hotel as it opens: five free rooms and no reservations. */
  function InitialHotel(): (h: Hotel)
    ensures |h.rooms| == 5 && h.reservations == []
    ensures forall i :: 0 <= i < |h.rooms| ==> !h.rooms[i].isBooked
  {
    Hotel([NewRoom(101, "Standard", 2000.0),
           NewRoom(102, "Deluxe", 3500.0),
           NewRoom(103, "Suite", 6000.0),
           NewRoom(104, "Standard", 2000.0),
           NewRoom(105, "Deluxe", 3500.0)], [])
  }

  /** Every reservation points at a room of the hotel. */
  predicate RefsValid(h: Hotel)
  {
    forall k :: 0 <= k < |h.reservations| ==> h.reservations[k].room < |h.rooms|
  }

  /** Some reservation holds the room at position `i`. */
  predicate Held(reservations: seq<Reservation>, i: nat)
  {
    exists k :: 0 <= k < |reservations| && reservations[k].room == i
  }

  /** No two reservations hold the same room. */
  predicate HeldOnce(reservations: seq<Reservation>)
  {
    forall k1, k2 :: 0 <= k1 < |reservations| && 0 <= k2 < |reservations| && k1 != k2 ==>
      reservations[k1].room != reservations[k2].room
  }

  /** The booking book is consistent: every reservation holds a room of the
      hotel, no room is held twice, and a room is marked booked exactly when a
      reservation holds it. */
  predicate Consistent(h: Hotel)
  {
    && RefsValid(h)
    && HeldOnce(h.reservations)
    && forall i :: 0 <= i < |h.rooms| ==> (h.rooms[i].isBooked <==> Held(h.reservations, i))
  }

  /** No two rooms share a number. */
  predicate UniqueNumbers(rooms: seq<Room>)
  {
    forall i, j :: 0 <= i < |rooms| && 0 <= j < |rooms| && i != j ==> rooms[i].number != rooms[j].number
  }

  /** Two room lists describe the same rooms: same numbers, categories and
      prices in the same order; only the booked flags may differ. */
  predicate SameLayout(a: seq<Room>, b: seq<Room>)
  {
    |a| == |b| &&
    forall i :: 0 <= i < |a| ==>
      a[i].number == b[i].number && a[i].category == b[i].category && a[i].price == b[i].price
  }

  /** In a consistent hotel a booked room is held by exactly one reservation,
      and a free room by none. */
  lemma BookedIffHeldOnce(h: Hotel, i: nat)
    requires Consistent(h) && i < |h.rooms|
    ensures h.rooms[i].isBooked ==>
      exists k :: 0 <= k < |h.reservations| && h.reservations[k].room == i &&
        forall k' :: 0 <= k' < |h.reservations| && h.reservations[k'].room == i ==> k' == k
    ensures !h.rooms[i].isBooked ==> forall k :: 0 <= k < |h.reservations| ==> h.reservations[k].room != i
  {
    if h.rooms[i].isBooked {
      var k :| 0 <= k < |h.reservations| && h.reservations[k].room == i;
      assert forall k' :: 0 <= k' < |h.reservations| && h.reservations[k'].room == i ==> k' == k;
    }
  }

  /** The hotel opens consistent, with distinct room numbers. */
  lemma InitialHotelConsistent()
    ensures Consistent(InitialHotel())
    ensures UniqueNumbers(InitialHotel().rooms)
  {
  }

  /** Room `r` can be booked under number `roomNo`. */
  predicate Available(r: Room, roomNo: int)
  {
    r.number == roomNo && !r.isBooked
  }

  /** The first room at or after position `from` that can be booked under `roomNo`. */
  function FindRoomFrom(rooms: seq<Room>, roomNo: int, from: nat): (r: Option<nat>)
    requires from <= |rooms|
    ensures r.Some? ==> from <= r.value < |rooms| && Available(rooms[r.value], roomNo)
    ensures r.Some? ==> forall j :: from <= j < r.value ==> !Available(rooms[j], roomNo)
    ensures r.None? ==> forall j :: from <= j < |rooms| ==> !Available(rooms[j], roomNo)
    decreases |rooms| - from
  {
    if from == |rooms| then None
    else if Available(rooms[from], roomNo) then Some(from)
    else FindRoomFrom(rooms, roomNo, from + 1)
  }

  /** The first room, in list order, that can be booked under `roomNo`. */
  function FindRoom(rooms: seq<Room>, roomNo: int): (r: Option<nat>)
    ensures r.Some? <==> exists j :: 0 <= j < |rooms| && Available(rooms[j], roomNo)
    ensures r.Some? ==> r.value < |rooms| && Available(rooms[r.value], roomNo)
    ensures r.Some? ==> forall j :: 0 <= j < r.value ==> !Available(rooms[j], roomNo)
  {
    FindRoomFrom(rooms, roomNo, 0)
  }

  /** Book the first free room numbered `roomNo` for `name` and `days` days:
      the room is marked booked and a reservation for it is appended. When no
      free room has that number nothing changes. The number of days is not
      checked. */
  function BookRoom(h: Hotel, name: string, roomNo: int, days: int): (r: Change)
    ensures r.ok <==> exists j :: 0 <= j < |h.rooms| && Available(h.rooms[j], roomNo)
    ensures !r.ok ==> r.hotel == h
    ensures SameLayout(h.rooms, r.hotel.rooms)
    ensures r.ok ==>
      && |r.hotel.reservations| == |h.reservations| + 1
      && r.hotel.reservations[..|h.reservations|] == h.reservations
      && var i := r.hotel.reservations[|h.reservations|].room;
      && i < |h.rooms| && Available(h.rooms[i], roomNo)
      && (forall j :: 0 <= j < i ==> !Available(h.rooms[j], roomNo))
      && r.hotel.reservations[|h.reservations|] == NewReservation(name, h.rooms, i, days)
      && r.hotel.rooms == h.rooms[i := h.rooms[i].(isBooked := true)]
  {
    match FindRoom(h.rooms, roomNo)
    case None => Change(false, h)
    case Some(i) =>
      var rooms := h.rooms[i := h.rooms[i].(isBooked := true)];
      Change(true, Hotel(rooms, h.reservations + [NewReservation(name, h.rooms, i, days)]))
  }

  /** Reservation `res` is for `name` (ignoring case) and holds a room numbered `roomNo`. */
  predicate Matches(rooms: seq<Room>, res: Reservation, name: string, roomNo: int)
  {
    Text.EqualsIgnoreCase(res.customerName, name) && res.room < |rooms| && rooms[res.room].number == roomNo
  }

  /** The first reservation at or after position `from` that matches `name` and `roomNo`. */
  function FindReservationFrom(h: Hotel, name: string, roomNo: int, from: nat): (r: Option<nat>)
    requires from <= |h.reservations|
    ensures r.Some? ==> from <= r.value < |h.reservations| && Matches(h.rooms, h.reservations[r.value], name, roomNo)
    ensures r.Some? ==> forall k :: from <= k < r.value ==> !Matches(h.rooms, h.reservations[k], name, roomNo)
    ensures r.None? ==> forall k :: from <= k < |h.reservations| ==> !Matches(h.rooms, h.reservations[k], name, roomNo)
    decreases |h.reservations| - from
  {
    if from == |h.reservations| then None
    else if Matches(h.rooms, h.reservations[from], name, roomNo) then Some(from)
    else FindReservationFrom(h, name, roomNo, from + 1)
  }

  /** The first reservation, in booking order, that matches `name` and `roomNo`. */
  function FindReservation(h: Hotel, name: string, roomNo: int): (r: Option<nat>)
    ensures r.Some? <==> exists k :: 0 <= k < |h.reservations| && Matches(h.rooms, h.reservations[k], name, roomNo)
    ensures r.Some? ==> r.value < |h.reservations| && Matches(h.rooms, h.reservations[r.value], name, roomNo)
    ensures r.Some? ==> forall k :: 0 <= k < r.value ==> !Matches(h.rooms, h.reservations[k], name, roomNo)
  {
    FindReservationFrom(h, name, roomNo, 0)
  }

  /** Cancel the first reservation for `name` (ignoring case) on a room
      numbered `roomNo`: its room is freed and the reservation is removed,
      the others keeping their order. When none matches nothing changes. */
  function CancelBooking(h: Hotel, name: string, roomNo: int): (r: Change)
    ensures r.ok <==> exists k :: 0 <= k < |h.reservations| && Matches(h.rooms, h.reservations[k], name, roomNo)
    ensures !r.ok ==> r.hotel == h
    ensures SameLayout(h.rooms, r.hotel.rooms)
    ensures r.ok ==> exists k :: 0 <= k < |h.reservations| && CancelledAt(h, r.hotel, name, roomNo, k)
  {
    match FindReservation(h, name, roomNo)
    case None => Change(false, h)
    case Some(k) =>
      var i := h.reservations[k].room;
      var rooms := h.rooms[i := h.rooms[i].(isBooked := false)];
      var after := Hotel(rooms, h.reservations[..k] + h.reservations[k + 1..]);
      assert CancelledAt(h, after, name, roomNo, k);
      Change(true, after)
  }

  /** `after` is `h` with reservation `k` cancelled: `k` is the first
      reservation matching `name` and `roomNo`, it is gone from the list, and
      the room it held is free. */
  predicate CancelledAt(h: Hotel, after: Hotel, name: string, roomNo: int, k: nat)
  {
    && k < |h.reservations|
    && Matches(h.rooms, h.reservations[k], name, roomNo)
    && (forall j :: 0 <= j < k ==> !Matches(h.rooms, h.reservations[j], name, roomNo))
    && after.reservations == h.reservations[..k] + h.reservations[k + 1..]
    && after.rooms == h.rooms[h.reservations[k].room := h.rooms[h.reservations[k].room].(isBooked := false)]
  }

  /** Booking keeps the booking book consistent. */
  lemma BookRoomKeepsConsistent(h: Hotel, name: string, roomNo: int, days: int)
    requires Consistent(h)
    ensures Consistent(BookRoom(h, name, roomNo, days).hotel)
  {
    var r := BookRoom(h, name, roomNo, days);
    if r.ok {
      var res, res' := h.reservations, r.hotel.reservations;
      var i := res'[|res|].room;
      assert res' == res + [res'[|res|]];
      assert !Held(res, i);
      forall j | 0 <= j < |r.hotel.rooms|
        ensures r.hotel.rooms[j].isBooked <==> Held(res', j)
      {
        if Held(res, j) {
          var k :| 0 <= k < |res| && res[k].room == j;
          assert res'[k] == res[k];
        }
        if j == i {
          assert res'[|res|].room == j;
        }
      }
    }
  }

  /** Removing reservation `k` from a list that holds each room at most once
      releases exactly the room `k` held. */
  lemma RemoveReleases(res: seq<Reservation>, k: nat, j: nat)
    requires k < |res| && HeldOnce(res)
    ensures HeldOnce(res[..k] + res[k + 1..])
    ensures Held(res[..k] + res[k + 1..], j) <==> Held(res, j) && j != res[k].room
  {
    var rest := res[..k] + res[k + 1..];
    assert forall m :: 0 <= m < |rest| ==> rest[m] == if m < k then res[m] else res[m + 1];
    if Held(res, j) && j != res[k].room {
      var m :| 0 <= m < |res| && res[m].room == j;
      assert rest[if m < k then m else m - 1] == res[m];
    }
  }

  /** Cancelling keeps the booking book consistent. */
  lemma CancelBookingKeepsConsistent(h: Hotel, name: string, roomNo: int)
    requires Consistent(h)
    ensures Consistent(CancelBooking(h, name, roomNo).hotel)
  {
    var r := CancelBooking(h, name, roomNo);
    if r.ok {
      var k :| 0 <= k < |h.reservations| && CancelledAt(h, r.hotel, name, roomNo, k);
      var res, rest := h.reservations, r.hotel.reservations;
      RemoveReleases(res, k, 0);
      assert forall m :: 0 <= m < |rest| ==> rest[m] == if m < k then res[m] else res[m + 1];
      assert RefsValid(r.hotel);
      forall j | 0 <= j < |r.hotel.rooms|
        ensures r.hotel.rooms[j].isBooked <==> Held(rest, j)
      {
        RemoveReleases(res, k, j);
      }
    }
  }

  /** In a consistent hotel with distinct room numbers, a room that has just
      been booked cannot be booked again. */
  lemma NoDoubleBooking(h: Hotel, name: string, other: string, roomNo: int, days: int, days': int)
    requires Consistent(h) && UniqueNumbers(h.rooms)
    requires BookRoom(h, name, roomNo, days).ok
    ensures !BookRoom(BookRoom(h, name, roomNo, days).hotel, other, roomNo, days').ok
  {
    var h' := BookRoom(h, name, roomNo, days).hotel;
    var i := h'.reservations[|h.reservations|].room;
    forall j | 0 <= j < |h'.rooms|
      ensures !Available(h'.rooms[j], roomNo)
    {
      if j != i {
        assert h'.rooms[j] == h.rooms[j];
      }
    }
  }

  /** In a consistent hotel with distinct room numbers, cancelling a booking
      right after making it, under the same name and room number, gives the
      hotel back exactly as it was. */
  lemma CancelUndoesBook(h: Hotel, name: string, roomNo: int, days: int)
    requires Consistent(h) && UniqueNumbers(h.rooms)
    requires BookRoom(h, name, roomNo, days).ok
    ensures CancelBooking(BookRoom(h, name, roomNo, days).hotel, name, roomNo).ok
    ensures CancelBooking(BookRoom(h, name, roomNo, days).hotel, name, roomNo).hotel == h
  {
    var h' := BookRoom(h, name, roomNo, days).hotel;
    var n := |h.reservations|;
    var i := h'.reservations[n].room;
    assert Matches(h'.rooms, h'.reservations[n], name, roomNo);
    forall k | 0 <= k < n
      ensures !Matches(h'.rooms, h'.reservations[k], name, roomNo)
    {
      assert h'.reservations[k] == h.reservations[k];
    }
    var c := CancelBooking(h', name, roomNo);
    var k :| 0 <= k < |h'.reservations| && CancelledAt(h', c.hotel, name, roomNo, k);
    assert k == n;
    assert c.hotel.reservations == h.reservations;
    assert c.hotel.rooms == h.rooms;
  }

  /** Booking and cancelling never change which rooms the hotel has. */
  lemma ChangesKeepLayout(h: Hotel, name: string, roomNo: int, days: int)
    ensures UniqueNumbers(h.rooms) ==> UniqueNumbers(BookRoom(h, name, roomNo, days).hotel.rooms)
    ensures UniqueNumbers(h.rooms) ==> UniqueNumbers(CancelBooking(h, name, roomNo).hotel.rooms)
  {
  }
}
