/** The reservation store of the server (Server.js): the JSON data file, `readBookings`
    with its recovery, and the read-modify-write bodies of the GET, POST and DELETE
    handlers. The file is a field of a `BookingStore` object; each handler reads it,
    changes the list in memory and writes the whole list back. */
module Store {
  import opened Wrappers
  import opened Numerals
  import opened Reservations
  import Availability

  /** What the data file holds, as far as `readBookings` can tell. */
  datatype DataFile =
    | Missing                      // reading throws: there is no file
    | Unreadable                   // reading throws for another reason
    | Blank                        // empty text, which is read as "[]"
    | Malformed                    // text that `JSON.parse` rejects
    | Listing(items: seq<Booking>) // a JSON array of bookings

  /** `readBookings`: the stored list, or the empty list whenever the file cannot be
      read or parsed. It never fails. */
  function ReadBookings(file: DataFile): (list: seq<Booking>)
    ensures file.Listing? ==> list == file.items
    ensures !file.Listing? ==> list == []
  {
    match file
    case Listing(items) => items
    case _ => []
  }

  /** The JSON body of a POST request; `None` stands for a missing property. */
  datatype Body = Body(
    room: Option<string>,
    date: Option<string>,
    startTime: Option<string>,
    endTime: Option<string>,
    displayTime: Option<string>,
    duration: Option<int>)

  /** JavaScript truthiness of a text property: present and not empty. */
  predicate Truthy(field: Option<string>)
    ensures field.None? || field == Some("") ==> !Truthy(field)
    ensures Truthy(field) ==> |field.value| > 0
  {
    field.Some? && field.value != ""
  }

  /** The validation of the POST handler: the body must exist and carry a non-empty
      room, date, start time and end time. `duration` is not checked. An accepted
      body is stored exactly as it was sent. */
  function Validate(body: Option<Body>): (booking: Option<Booking>)
    ensures booking.Some? <==>
              body.Some? && Truthy(body.value.room) && Truthy(body.value.date) &&
              Truthy(body.value.startTime) && Truthy(body.value.endTime)
    ensures booking.Some? ==>
              Some(booking.value.room) == body.value.room && Some(booking.value.date) == body.value.date &&
              Some(booking.value.startTime) == body.value.startTime &&
              Some(booking.value.endTime) == body.value.endTime &&
              booking.value.displayTime == body.value.displayTime &&
              booking.value.duration == body.value.duration
  {
    match body
    case None => None
    case Some(b) =>
      if Truthy(b.room) && Truthy(b.date) && Truthy(b.startTime) && Truthy(b.endTime) then
        Some(Booking(b.room.value, b.date.value, b.startTime.value, b.endTime.value, b.displayTime, b.duration))
      else None
  }

  /** `bookings.splice(index, 1)`: the list without its element at `index`. Earlier
      elements keep their positions, later ones move down by one, and nothing else is
      lost. */
  function RemoveAt(list: seq<Booking>, index: nat): (rest: seq<Booking>)
    requires index < |list|
    ensures |rest| == |list| - 1
    ensures forall k :: 0 <= k < index ==> rest[k] == list[k]
    ensures forall k :: index <= k < |rest| ==> rest[k] == list[k + 1]
    ensures multiset(rest) + multiset{list[index]} == multiset(list)
  {
    assert list == list[..index] + [list[index]] + list[index + 1..];
    list[..index] + list[index + 1..]
  }

  /** The DELETE handler's index check: a number, not negative, below the length. */
  predicate InRange(index: Option<int>, length: nat)
    ensures !InRange(index, length) <==> index.None? || index.value < 0 || index.value >= length
  {
    index.Some? && 0 <= index.value < length
  }

  class BookingStore {
    var file: DataFile

    /** Server start-up: a missing data file is created holding an empty list. */
    constructor (existing: DataFile)
      ensures file == if existing == Missing then Listing([]) else existing
    {
      file := if existing == Missing then Listing([]) else existing;
    }

    /** GET /bookings: always 200, with the list `readBookings` gives. */
    method Get() returns (status: int, list: seq<Booking>)
      ensures status == 200 && list == ReadBookings(file)
    {
      list := ReadBookings(file);
      status := 200;
    }

    /** POST /bookings: 400 and no change for an invalid body; otherwise the booking is
        appended to what `readBookings` gives and the whole list is written back (201),
        unless the write fails (500, file unchanged). Overlap is not checked. */
    method Post(body: Option<Body>, writeFails: bool) returns (status: int, stored: Option<Booking>)
      modifies this
      ensures Validate(body).None? ==> status == 400 && stored == None && file == old(file)
      ensures Validate(body).Some? && writeFails ==> status == 500 && stored == None && file == old(file)
      ensures Validate(body).Some? && !writeFails ==>
                status == 201 && stored == Validate(body) &&
                file == Listing(ReadBookings(old(file)) + [stored.value])
    {
      var booking := Validate(body);
      if booking.None? {
        return 400, None;
      }
      var bookings := ReadBookings(file);
      bookings := bookings + [booking.value];
      if writeFails {
        return 500, None;
      }
      file := Listing(bookings);
      return 201, booking;
    }

    /** DELETE /bookings/:index: the index text is read with `parseInt`; 400 and no
        change unless it names a position of the list `readBookings` gives; otherwise
        that element is spliced out and the rest written back (200 with the removed
        booking), unless the write fails (500, file unchanged). */
    method Delete(indexText: string, writeFails: bool) returns (status: int, removed: Option<Booking>)
      modifies this
      ensures var index := ParseInt(indexText);
              var before := ReadBookings(old(file));
              if !InRange(index, |before|) then
                status == 400 && removed == None && file == old(file)
              else if writeFails then
                status == 500 && removed == None && file == old(file)
              else
                status == 200 && removed == Some(before[index.value]) &&
                file == Listing(RemoveAt(before, index.value))
    {
      var index := ParseInt(indexText);
      var bookings := ReadBookings(file);
      if !InRange(index, |bookings|) {
        return 400, None;
      }
      var gone := bookings[index.value];
      bookings := RemoveAt(bookings, index.value);
      if writeFails {
        return 500, None;
      }
      file := Listing(bookings);
      return 200, Some(gone);
    }
  }

  /** The body the page sends for a booking it read back. */
  function BodyOf(b: Booking): Body
  {
    Body(Some(b.room), Some(b.date), Some(b.startTime), Some(b.endTime), b.displayTime, b.duration)
  }

  /** Two reads with no write between them give the same list. */
  method GetTwice(store: BookingStore) returns (first: seq<Booking>, second: seq<Booking>)
    ensures first == second == ReadBookings(store.file)
  {
    var status;
    status, first := store.Get();
    status, second := store.Get();
  }

  /** A POST followed by a GET lists the old bookings, then the new one, last. */
  method PostThenGet(existing: seq<Booking>, body: Body) returns (status: int, list: seq<Booking>)
    requires Validate(Some(body)).Some?
    ensures status == 201
    ensures |list| == |existing| + 1 && list[..|existing|] == existing
    ensures list[|existing|] == Validate(Some(body)).value
  {
    var store := new BookingStore(Listing(existing));
    var stored;
    status, stored := store.Post(Some(body), false);
    var listed;
    listed, list := store.Get();
    assert list == existing + [stored.value];
  }

  /** The server stores a booking that collides with one already stored for the same
      room and date: the overlap check lives only in the page. */
  method DoubleBookingIsStored(b: Booking) returns (status: int, list: seq<Booking>)
    requires b.room != "" && b.date != "" && b.startTime != "" && b.endTime != ""
    requires Availability.NonEmpty(b)
    ensures Availability.IsBooked([b], b.room, b.date, b.startTime, b.endTime)
    ensures status == 201 && list == [b, b]
  {
    assert Availability.Conflicts(b, b.room, b.date, b.startTime, b.endTime);
    var store := new BookingStore(Listing([b]));
    var stored;
    status, stored := store.Post(Some(BodyOf(b)), false);
    var listed;
    listed, list := store.Get();
  }

  /** The page cancels the booking in row `i` by sending `${i}` as the index: the server
      removes exactly that booking. */
  method CancelRow(existing: seq<Booking>, i: nat) returns (status: int, removed: Option<Booking>, list: seq<Booking>)
    requires i < |existing|
    ensures status == 200 && removed == Some(existing[i])
    ensures |list| == |existing| - 1 && list[..i] == existing[..i] && list[i..] == existing[i + 1..]
  {
    var store := new BookingStore(Listing(existing));
    ParseIntShowNat(i, []);
    assert ShowNat(i) + [] == ShowNat(i);
    status, removed := store.Delete(ShowNat(i), false);
    var listed;
    listed, list := store.Get();
  }

  /** Index -1 and index 1 are refused on a one-element list; index 0 empties it. */
  method DeleteBoundaries(b: Booking) returns (below: int, above: int, first: int, list: seq<Booking>)
    ensures below == 400 && above == 400 && first == 200 && list == []
  {
    var store := new BookingStore(Listing([b]));
    var removed;
    ParseIntNegative(1);
    ParseIntShowNat(1, []);
    ParseIntShowNat(0, []);
    assert "-" + ShowNat(1) == "-1" && ShowNat(1) + [] == "1" && ShowNat(0) + [] == "0";
    below, removed := store.Delete("-1", false);
    above, removed := store.Delete("1", false);
    first, removed := store.Delete("0", false);
    var listed;
    listed, list := store.Get();
  }
}
