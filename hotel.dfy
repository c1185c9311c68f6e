/**
  The reservation book of one hotel server: a table of reservations per room,
  the range checks on day, room and number of nights, the closed-interval
  overlap test, booking, and the two read-only queries (first free room,
  status listing of every room for one day).
 */
module HotelBook {

  datatype Option<+T> = None | Some(value: T)

  /** The error kinds the book reports (the French messages are abstracted away). */
  datatype HotelError = InvalidDay | InvalidRoom | InvalidNights | AlreadyBooked | NoRoomAvailable

  datatype Result<+T> = Ok(value: T) | Err(error: HotelError)

  /** One stay: room `idRoom` is held by `client` for the nights `day` .. `day + nbNights - 1`. */
  datatype Reservation = Reservation(idRoom: int, client: string, day: int, nbNights: int)
  {
    /** The last night of the stay, the day before check-out. */
    function LastDay(): int { day + nbNights - 1 }
  }

  /** The zero value of a reservation, handed back when no overlap is found. */
  const NoReservation := Reservation(0, "", 0, 0)

  /** The reservations of every room, in booking order. */
  type Book = map<int, seq<Reservation>>

  /** The list of a room; a room never booked has the empty list, as a missing key of a Go map reads. */
  function RoomList(book: Book, idRoom: int): seq<Reservation>
  {
    if idRoom in book then book[idRoom] else []
  }

  // ---------------------------------------------------------------------------
  // Range checks

  function ValidateIdRoom(maxRooms: int, id: int): (r: Option<HotelError>)
    ensures r == None <==> 1 <= id <= maxRooms
    ensures r == None || r == Some(InvalidRoom)
  {
    if id < 1 || id > maxRooms then Some(InvalidRoom) else None
  }

  function ValidateDay(maxDays: int, day: int): (r: Option<HotelError>)
    ensures r == None <==> 1 <= day <= maxDays
    ensures r == None || r == Some(InvalidDay)
  {
    if day < 1 || day > maxDays then Some(InvalidDay) else None
  }

  /** On unbounded integers: the corrected reading of the night-count check. */
  function ValidateNbNights(maxDays: int, day: int, nbNights: int): (r: Option<HotelError>)
    ensures r == None <==> 1 <= nbNights && day + nbNights - 1 <= maxDays
    ensures r == None || r == Some(InvalidNights)
  {
    if nbNights < 1 || day + nbNights - 1 > maxDays then Some(InvalidNights) else None
  }

  /** The night `night` is one of the book's days. */
  predicate InBook(maxDays: int, night: int) { 1 <= night <= maxDays }

  /** A stay whose first day and night count both pass the checks lies wholly inside the book. */
  lemma StayWithinBook(maxDays: int, day: int, nbNights: int)
    requires ValidateDay(maxDays, day) == None
    requires ValidateNbNights(maxDays, day, nbNights) == None
    ensures nbNights >= 1
    ensures forall night :: day <= night < day + nbNights ==> InBook(maxDays, night)
  {
  }

  // The night-count check as the Go code evaluates it, on 64-bit `int`.

  const Int64Min: int := -0x8000_0000_0000_0000
  const Int64Max: int := 0x7FFF_FFFF_FFFF_FFFF

  predicate IsInt64(x: int) { Int64Min <= x <= Int64Max }

  /** Two's-complement wrap-around of a 64-bit signed addition or subtraction. */
  function Wrap64(x: int): (r: int)
    ensures IsInt64(r)
    ensures (r - x) % 0x1_0000_0000_0000_0000 == 0
    ensures IsInt64(x) ==> r == x
  {
    (x - Int64Min) % 0x1_0000_0000_0000_0000 + Int64Min
  }

  /** As long as neither `day + nbNights` nor `day + nbNights - 1` leaves the 64-bit range, it agrees with the unbounded check. */
  function ValidateNbNightsInt64(maxDays: int, day: int, nbNights: int): (r: Option<HotelError>)
    requires IsInt64(maxDays) && IsInt64(day) && IsInt64(nbNights)
    ensures r == None || r == Some(InvalidNights)
    ensures IsInt64(day + nbNights) && IsInt64(day + nbNights - 1) ==> r == ValidateNbNights(maxDays, day, nbNights)
  {
    if nbNights < 1 || Wrap64(Wrap64(day + nbNights) - 1) > maxDays then Some(InvalidNights) else None
  }

  /** With 64-bit arithmetic, a stay of 2^63 - 1 nights from day 2 passes the check in a 30-day book. */
  lemma NbNightsOverflowAccepted()
    ensures ValidateDay(30, 2) == None
    ensures ValidateNbNightsInt64(30, 2, Int64Max) == None
    ensures ValidateNbNights(30, 2, Int64Max) == Some(InvalidNights)
  {
    assert Wrap64(2 + Int64Max) == Int64Min + 1;
  }

  // ---------------------------------------------------------------------------
  // Overlap of closed intervals

  /**
    The four-way test of the source: the requested stay `[day, day + nbNights - 1]`
    starts inside `res`, ends inside `res`, lies inside `res`, or contains `res`.
   */
  predicate Overlaps(res: Reservation, day: int, nbNights: int)
    ensures nbNights >= 1 && res.nbNights >= 1 ==>
      (Overlaps(res, day, nbNights) <==> day <= res.LastDay() && res.day <= day + nbNights - 1)
  {
    var lastDay := day + nbNights - 1;
    var resLastDay := res.LastDay();
    (day >= res.day && day <= resLastDay) || (lastDay >= res.day && lastDay <= resLastDay)
    || (day >= res.day && lastDay <= resLastDay) || (res.day >= day && resLastDay <= lastDay)
  }

  /** For non-empty stays the test does not depend on which of the two stays is the request. */
  lemma OverlapsSymmetric(a: Reservation, b: Reservation)
    requires a.nbNights >= 1 && b.nbNights >= 1
    ensures Overlaps(a, b.day, b.nbNights) <==> Overlaps(b, a.day, a.nbNights)
  {
  }

  /** No reservation of `rs` overlaps the requested stay. */
  predicate NoOverlap(rs: seq<Reservation>, day: int, nbNights: int)
  {
    forall k :: 0 <= k < |rs| ==> !Overlaps(rs[k], day, nbNights)
  }

  /** The position of the first reservation of `rs` that overlaps the stay, or `|rs|` if there is none. */
  function FirstOverlapIndex(rs: seq<Reservation>, day: int, nbNights: int): (k: nat)
    ensures k <= |rs|
    ensures k < |rs| ==> Overlaps(rs[k], day, nbNights)
    ensures forall j :: 0 <= j < k ==> !Overlaps(rs[j], day, nbNights)
  {
    if rs == [] then 0
    else if Overlaps(rs[0], day, nbNights) then 0
    else 1 + FirstOverlapIndex(rs[1..], day, nbNights)
  }

  /** The first-overlap position reaches the end of the list exactly when nothing overlaps. */
  lemma FirstOverlapIndexIsEndIffFree(rs: seq<Reservation>, day: int, nbNights: int)
    ensures FirstOverlapIndex(rs, day, nbNights) == |rs| <==> NoOverlap(rs, day, nbNights)
  {
  }

  // ---------------------------------------------------------------------------
  // The invariant of the book

  /** A stored reservation belongs to its room and lies inside the book's days. */
  predicate ValidStay(maxDays: int, idRoom: int, res: Reservation)
  {
    res.idRoom == idRoom && 1 <= res.day && 1 <= res.nbNights && res.LastDay() <= maxDays
  }

  /** No reservation overlaps one booked before it in the same list. */
  predicate PairwiseDisjoint(rs: seq<Reservation>)
  {
    forall i, j :: 0 <= i < j < |rs| ==> !Overlaps(rs[i], rs[j].day, rs[j].nbNights)
  }

  predicate RoomWellFormed(maxDays: int, idRoom: int, rs: seq<Reservation>)
  {
    (forall k :: 0 <= k < |rs| ==> ValidStay(maxDays, idRoom, rs[k])) && PairwiseDisjoint(rs)
  }

  /** Every listed room is a valid room, and each room's reservations are valid and pairwise disjoint. */
  predicate WellFormed(maxDays: int, maxRooms: int, book: Book)
  {
    forall idRoom :: idRoom in book ==> 1 <= idRoom <= maxRooms && RoomWellFormed(maxDays, idRoom, book[idRoom])
  }

  /** The book after a successful booking: one reservation appended to the room's list. */
  function Appended(book: Book, idRoom: int, client: string, day: int, nbNights: int): Book
  {
    book[idRoom := RoomList(book, idRoom) + [Reservation(idRoom, client, day, nbNights)]]
  }

  /** A booking that passes every check keeps the book well formed. */
  lemma BookPreservesWellFormed(maxDays: int, maxRooms: int, book: Book,
                                idRoom: int, client: string, day: int, nbNights: int)
    requires WellFormed(maxDays, maxRooms, book)
    requires ValidateDay(maxDays, day) == None
    requires ValidateIdRoom(maxRooms, idRoom) == None
    requires ValidateNbNights(maxDays, day, nbNights) == None
    requires NoOverlap(RoomList(book, idRoom), day, nbNights)
    ensures WellFormed(maxDays, maxRooms, Appended(book, idRoom, client, day, nbNights))
  {
  }

  // ---------------------------------------------------------------------------
  // Room status on one day

  datatype RoomStatus = Libre | Reserve | Occupe

  /** One line of the listing: a room and its status, or the closing `END`. */
  datatype Line = RoomLine(idRoom: int, status: RoomStatus) | End

  /** The status the listing reports for a room: taken from the first reservation that holds the night `day`. */
  function StatusOf(book: Book, idRoom: int, day: int, clientName: string): (r: RoomStatus)
    ensures r == Libre <==> NoOverlap(RoomList(book, idRoom), day, 1)
    ensures r == Reserve <==>
      (!NoOverlap(RoomList(book, idRoom), day, 1)
       && RoomList(book, idRoom)[FirstOverlapIndex(RoomList(book, idRoom), day, 1)].client == clientName)
  {
    var rs := RoomList(book, idRoom);
    var k := FirstOverlapIndex(rs, day, 1);
    if k == |rs| then Libre
    else if rs[k].client == clientName then Reserve
    else Occupe
  }

  /** The stay `res` includes the night `day`. */
  predicate Covers(res: Reservation, day: int)
  {
    res.day <= day <= res.LastDay()
  }

  /** In a well-formed book at most one reservation of a room holds a given night. */
  lemma CoveringReservationUnique(maxDays: int, idRoom: int, rs: seq<Reservation>, day: int, i: int, j: int)
    requires RoomWellFormed(maxDays, idRoom, rs)
    requires 0 <= i < |rs| && 0 <= j < |rs|
    requires Covers(rs[i], day) && Covers(rs[j], day)
    ensures i == j
  {
  }

  /**
    In a well-formed book the listing reads: LIBRE when no reservation of the room
    holds the night, RESERVE when the one holding it is the asking client's, and
    OCCUPE when it is someone else's.
   */
  lemma StatusOfMeaning(maxDays: int, maxRooms: int, book: Book, idRoom: int, day: int, clientName: string)
    requires WellFormed(maxDays, maxRooms, book)
    ensures StatusOf(book, idRoom, day, clientName) == Libre <==>
      forall k :: 0 <= k < |RoomList(book, idRoom)| ==> !Covers(RoomList(book, idRoom)[k], day)
    ensures StatusOf(book, idRoom, day, clientName) == Reserve <==>
      exists k :: 0 <= k < |RoomList(book, idRoom)| && Covers(RoomList(book, idRoom)[k], day)
        && RoomList(book, idRoom)[k].client == clientName
    ensures StatusOf(book, idRoom, day, clientName) == Occupe <==>
      exists k :: 0 <= k < |RoomList(book, idRoom)| && Covers(RoomList(book, idRoom)[k], day)
        && RoomList(book, idRoom)[k].client != clientName
  {
  }

  // ---------------------------------------------------------------------------
  // The book of one server

  class Hotel {
    var reservations: Book
    const maxDays: int
    const maxRooms: int

    ghost predicate Valid()
      reads this
    {
      WellFormed(maxDays, maxRooms, reservations)
    }

    constructor (maxDays: int, maxRooms: int)
      ensures this.maxDays == maxDays && this.maxRooms == maxRooms
      ensures reservations == map[] && Valid()
    {
      this.maxDays := maxDays;
      this.maxRooms := maxRooms;
      reservations := map[];
    }

    /**
      Whether some reservation of room `idRoom` overlaps the stay, and the first
      such reservation in booking order (the zero reservation when there is none).
     */
    method IsAlreadyBooked(idRoom: int, day: int, nbNights: int) returns (booked: bool, res: Reservation)
      ensures booked <==> !NoOverlap(RoomList(reservations, idRoom), day, nbNights)
      ensures booked ==> res == RoomList(reservations, idRoom)[FirstOverlapIndex(RoomList(reservations, idRoom), day, nbNights)]
      ensures !booked ==> res == NoReservation
    {
      var rs := RoomList(reservations, idRoom);
      var i := 0;
      while i < |rs|
        invariant 0 <= i <= |rs|
        invariant forall j :: 0 <= j < i ==> !Overlaps(rs[j], day, nbNights)
      {
        if Overlaps(rs[i], day, nbNights) {
          return true, rs[i];
        }
        i := i + 1;
      }
      return false, NoReservation;
    }

    /**
      Books room `idRoom` for `client`. The checks run in the order day, room,
      nights, overlap; any failure leaves the book as it was. Success appends one
      reservation to the room's list and touches no other room.
     */
    method BookRoom(idRoom: int, day: int, nbNights: int, client: string) returns (r: Result<()>)
      modifies this
      ensures old(Valid()) ==> Valid()
      ensures ValidateDay(maxDays, day) != None ==> r == Err(InvalidDay)
      ensures ValidateDay(maxDays, day) == None && ValidateIdRoom(maxRooms, idRoom) != None
        ==> r == Err(InvalidRoom)
      ensures ValidateDay(maxDays, day) == None && ValidateIdRoom(maxRooms, idRoom) == None
        && ValidateNbNights(maxDays, day, nbNights) != None
        ==> r == Err(InvalidNights)
      ensures ValidateDay(maxDays, day) == None && ValidateIdRoom(maxRooms, idRoom) == None
        && ValidateNbNights(maxDays, day, nbNights) == None
        ==> r == (if NoOverlap(old(RoomList(reservations, idRoom)), day, nbNights) then Ok(()) else Err(AlreadyBooked))
      ensures r.Err? ==> reservations == old(reservations)
      ensures r.Ok? ==> reservations == Appended(old(reservations), idRoom, client, day, nbNights)
    {
      var err := ValidateDay(maxDays, day);
      if err.Some? { return Err(err.value); }
      err := ValidateIdRoom(maxRooms, idRoom);
      if err.Some? { return Err(err.value); }
      err := ValidateNbNights(maxDays, day, nbNights);
      if err.Some? { return Err(err.value); }

      var booked, _ := IsAlreadyBooked(idRoom, day, nbNights);
      if booked {
        return Err(AlreadyBooked);
      }

      ghost var before := reservations;
      reservations := reservations[idRoom := RoomList(reservations, idRoom) + [Reservation(idRoom, client, day, nbNights)]];
      if WellFormed(maxDays, maxRooms, before) {
        BookPreservesWellFormed(maxDays, maxRooms, before, idRoom, client, day, nbNights);
      }
      return Ok(());
    }

    /**
      The status of every room `1 .. maxRooms` on night `day` for `clientName`,
      in room order, followed by `END`.
     */
    method GetRoomsList(day: int, clientName: string) returns (r: Result<seq<Line>>)
      ensures ValidateDay(maxDays, day) != None ==> r == Err(InvalidDay)
      ensures ValidateDay(maxDays, day) == None ==> r.Ok?
      ensures r.Ok? ==> |r.value| == (if maxRooms < 0 then 0 else maxRooms) + 1
      ensures r.Ok? ==> r.value[|r.value| - 1] == End
      ensures r.Ok? ==> forall k :: 0 <= k < |r.value| - 1 ==>
        r.value[k] == RoomLine(k + 1, StatusOf(reservations, k + 1, day, clientName))
    {
      var err := ValidateDay(maxDays, day);
      if err.Some? { return Err(err.value); }

      var lines: seq<Line> := [];
      var i := 1;
      while i <= maxRooms
        invariant 1 <= i <= (if maxRooms < 0 then 0 else maxRooms) + 1
        invariant |lines| == i - 1
        invariant forall k :: 0 <= k < |lines| ==> lines[k] == RoomLine(k + 1, StatusOf(reservations, k + 1, day, clientName))
      {
        var booked, res := IsAlreadyBooked(i, day, 1);
        var status;
        if booked {
          if clientName == res.client {
            status := Reserve;
          } else {
            status := Occupe;
          }
        } else {
          status := Libre;
        }
        lines := lines + [RoomLine(i, status)];
        i := i + 1;
      }
      lines := lines + [End];
      return Ok(lines);
    }

    /**
      The smallest room in `1 .. maxRooms` that no reservation overlaps for the
      stay, or `NoRoomAvailable` when every room is taken.
     */
    method GetFreeRoom(day: int, nbNights: int) returns (r: Result<int>)
      ensures ValidateDay(maxDays, day) != None ==> r == Err(InvalidDay)
      ensures ValidateDay(maxDays, day) == None && ValidateNbNights(maxDays, day, nbNights) != None
        ==> r == Err(InvalidNights)
      ensures r.Ok? ==> 1 <= r.value <= maxRooms && NoOverlap(RoomList(reservations, r.value), day, nbNights)
      ensures r.Ok? ==> forall j :: 1 <= j < r.value ==> !NoOverlap(RoomList(reservations, j), day, nbNights)
      ensures r.Err? && ValidateDay(maxDays, day) == None && ValidateNbNights(maxDays, day, nbNights) == None
        ==> r == Err(NoRoomAvailable) && forall j :: 1 <= j <= maxRooms ==> !NoOverlap(RoomList(reservations, j), day, nbNights)
    {
      var err := ValidateDay(maxDays, day);
      if err.Some? { return Err(err.value); }
      err := ValidateNbNights(maxDays, day, nbNights);
      if err.Some? { return Err(err.value); }

      var i := 1;
      while i <= maxRooms
        invariant 1 <= i <= (if maxRooms < 0 then 0 else maxRooms) + 1
        invariant forall j :: 1 <= j < i ==> !NoOverlap(RoomList(reservations, j), day, nbNights)
      {
        var booked, _ := IsAlreadyBooked(i, day, nbNights);
        if !booked {
          return Ok(i);
        }
        i := i + 1;
      }
      return Err(NoRoomAvailable);
    }
  }
}
