/** The application's in-memory state, the `rooms` and `bookings` lists,
    and the handlers that change them: loading at start-up, adding and
    deleting rooms, booking and cancelling, and the in-place sort of the
    room list. The answers of dialogs and the contents of files are
    parameters and results; a written file is returned as its lines. */
module Hotel {
  import opened Wrappers
  import opened Strings
  import opened Numbers
  import opened Dates
  import opened Sequences
  import opened Records
  import opened TextFiles
  import opened Codec
  import opened Views
  import opened Report

  /** `showConfirmDialog` with YES_NO_CANCEL: closing the dialog gives
      CLOSED_OPTION, which the handler treats like No. */
  datatype Answer = Yes | No | Cancel | Closed

  datatype AddOutcome = InvalidInput | TypeRequired | RoomExists | Added

  datatype BookOutcome = NameRequired | AlreadyBooked | Confirmed

  /** The rooms created on a first start with no saved rooms. */
  function SampleRooms(): (rooms: seq<Room>)
    ensures RoomNumbersDistinct(rooms) && SortedBy(rooms, NumberOf)
  {
    [Room(101, "Single", 1200.0), Room(102, "Double", 1800.0), Room(201, "Deluxe", 3000.0)]
  }

  /** A booking made through the form is stored under the trimmed name; when
      that name has no comma, its saved line decodes as the same booking, and
      when it also has no line break, a file of that line reads back as it. */
  lemma BookedLineReloads(customerText: string, roomNumber: Int32, date: Date)
    requires FieldSeparator !in customerText && ValidDate(date)
    ensures var b := Booking(roomNumber, Trim(customerText), date);
      DecodeBookingLine(EncodeBooking(b)) == Row(b)
    ensures var b := Booking(roomNumber, Trim(customerText), date);
      OneLine(customerText) ==> LoadedBookings(ReadAllLines(WriteLines([EncodeBooking(b)]))) == [b]
  {
    var b := Booking(roomNumber, Trim(customerText), date);
    assert StorableBooking(b) by {
      TrimKeepsAbsent(customerText, FieldSeparator);
      TrimIdempotent(customerText);
    }
    if OneLine(customerText) {
      assert OneLine(b.customer) by {
        TrimKeepsAbsent(customerText, LineFeed);
        TrimKeepsAbsent(customerText, CarriageReturn);
      }
      BookingFileRoundTrip(b);
    } else {
      BookingLineRoundTrip(b);
    }
  }

  class Store {
    var rooms: seq<Room>
    var bookings: seq<Booking>

    /** The two invariants the handlers keep: distinct room numbers and at
        most one booking per (room, date). A loaded file may break them. */
    ghost predicate Consistent()
      reads this
    {
      RoomNumbersDistinct(rooms) && OneBookingPerSlot(bookings)
    }

    /** Every booking date is a real calendar date (a `LocalDate`). */
    ghost predicate DatesValid()
      reads this
    {
      forall i :: 0 <= i < |bookings| ==> ValidDate(bookings[i].date)
    }

    /** `main`: load both files (`None` when the file does not exist), then
        seed the sample rooms when no room was loaded. */
    constructor (roomsFile: Option<seq<string>>, bookingsFile: Option<seq<string>>, parsePrice: string -> Option<real>)
      ensures var loaded := if roomsFile.None? then [] else LoadedRooms(roomsFile.value, parsePrice);
        rooms == if loaded == [] then SampleRooms() else loaded
      ensures bookings == if bookingsFile.None? then [] else LoadedBookings(bookingsFile.value)
      ensures DatesValid()
    {
      rooms := [];
      bookings := [];
      new;
      LoadRooms(roomsFile, parsePrice);
      LoadBookings(bookingsFile);
      SeedSampleRooms();
    }

    /** `loadRooms`: clear the list, then (when the file exists) add the
        rooms line by line until the first parse exception. */
    method LoadRooms(file: Option<seq<string>>, parsePrice: string -> Option<real>)
      modifies this`rooms
      ensures rooms == if file.None? then [] else LoadedRooms(file.value, parsePrice)
    {
      rooms := [];
      if file.Some? {
        rooms := LoadLines(file.value, RoomDecoder(parsePrice));
      }
    }

    /** `loadBookings`, the same over `bookings.csv`; every loaded date is
        a real date. */
    method LoadBookings(file: Option<seq<string>>)
      modifies this`bookings
      ensures bookings == if file.None? then [] else LoadedBookings(file.value)
      ensures DatesValid()
    {
      bookings := [];
      if file.Some? {
        bookings := LoadLines(file.value, DecodeBookingLine);
        LoadedSatisfies(file.value, DecodeBookingLine, StorableBooking);
      }
    }

    method SeedSampleRooms()
      modifies this`rooms
      ensures rooms == if old(rooms) == [] then SampleRooms() else old(rooms)
      ensures old(RoomNumbersDistinct(rooms)) ==> RoomNumbersDistinct(rooms)
    {
      if rooms == [] {
        rooms := SampleRooms();
      }
    }

    /** `reloadRoomsModel`: `rooms.sort(comparingInt(number))`, stable. */
    method SortRooms()
      modifies this`rooms
      ensures rooms == SortBy(old(rooms), NumberOf)
      ensures SortedBy(rooms, NumberOf) && multiset(rooms) == multiset(old(rooms))
      ensures old(RoomNumbersDistinct(rooms)) ==> RoomNumbersDistinct(rooms)
      ensures old(SortedBy(rooms, NumberOf)) ==> rooms == old(rooms)
    {
      SortBySorted(rooms, NumberOf);
      if RoomNumbersDistinct(rooms) {
        SortByDistinct(rooms, NumberOf, NumberOf);
      }
      if SortedBy(rooms, NumberOf) {
        SortByOfSorted(rooms, NumberOf);
      }
      rooms := SortBy(rooms, NumberOf);
    }

    /** The duplicate check of the Add Room handler: `for (Room r : rooms)
        if (r.number == num)`. */
    method HasRoom(number: Int32) returns (found: bool)
      ensures found <==> NumberTaken(rooms, number)
    {
      var i := 0;
      while i < |rooms|
        invariant 0 <= i <= |rooms|
        invariant forall k :: 0 <= k < i ==> rooms[k].number != number
      {
        if rooms[i].number == number {
          return true;
        }
        i := i + 1;
      }
      return false;
    }

    /** The Add Room handler. The number and price fields are parsed first
        (a failure shows "Invalid input"), then the trimmed type must be
        non-empty and the number new. An added room is appended and the
        list saved; the refresh then sorts the list in memory, so the file
        holds the appended order. */
    method AddRoom(numberText: string, typeText: string, priceText: string,
                   parsePrice: string -> Option<real>, showPrice: real -> string)
      returns (outcome: AddOutcome, roomsFile: Option<seq<string>>)
      modifies this`rooms
      ensures var number, price := ParseInt(Trim(numberText)), parsePrice(Trim(priceText));
        outcome == (if number.None? || price.None? then InvalidInput
                    else if Trim(typeText) == [] then TypeRequired
                    else if NumberTaken(old(rooms), number.value) then RoomExists
                    else Added)
      ensures outcome != Added ==> rooms == old(rooms) && roomsFile.None?
      ensures outcome == Added ==>
        var room := Room(ParseInt(Trim(numberText)).value, Trim(typeText), parsePrice(Trim(priceText)).value);
        roomsFile == Some(EncodeRooms(old(rooms) + [room], showPrice))
        && rooms == SortBy(old(rooms) + [room], NumberOf)
        && multiset(rooms) == multiset(old(rooms)) + multiset{room}
      ensures old(RoomNumbersDistinct(rooms)) ==> RoomNumbersDistinct(rooms)
    {
      roomsFile := None;
      var number := ParseInt(Trim(numberText));
      var roomType := Trim(typeText);
      var price := parsePrice(Trim(priceText));
      if number.None? || price.None? {
        return InvalidInput, None;
      }
      if roomType == [] {
        return TypeRequired, None;
      }
      var taken := HasRoom(number.value);
      if taken {
        return RoomExists, None;
      }
      var room := Room(number.value, roomType, price.value);
      if RoomNumbersDistinct(rooms) {
        AppendDistinct(rooms, room, NumberOf);
      }
      rooms := rooms + [room];
      roomsFile := Some(EncodeRooms(rooms, showPrice));
      SortRooms();
      outcome := Added;
    }

    /** The Delete Selected handler for the room numbered `number`. Cancel
        does nothing; Yes first removes the room's bookings and saves them;
        Yes, No and a closed dialog then remove the room, save the rooms
        and sort the list. */
    method DeleteRoom(number: Int32, answer: Answer, showPrice: real -> string)
      returns (bookingsFile: Option<seq<string>>, roomsFile: Option<seq<string>>)
      modifies this
      ensures answer == Cancel ==> rooms == old(rooms) && bookings == old(bookings)
                                   && bookingsFile.None? && roomsFile.None?
      ensures answer != Cancel ==>
        var left := RemoveWhere(old(rooms), HasNumber(number));
        rooms == SortBy(left, NumberOf) && roomsFile == Some(EncodeRooms(left, showPrice))
        && (old(SortedBy(rooms, NumberOf)) ==> rooms == left)
      ensures answer == Yes ==>
        bookings == RemoveWhere(old(bookings), ForRoom(number)) && bookingsFile == Some(EncodeBookings(bookings))
      ensures answer != Yes ==> bookings == old(bookings) && bookingsFile.None?
      ensures old(Consistent()) ==> Consistent()
      ensures old(DatesValid()) ==> DatesValid()
    {
      bookingsFile, roomsFile := None, None;
      if answer == Cancel {
        return;
      }
      if answer == Yes {
        bookingsFile := RemoveRoomBookings(number);
      }
      roomsFile := RemoveRoom(number, showPrice);
    }

    /** `bookings.removeIf(b -> b.roomNumber == roomNum)`, then the save. */
    method RemoveRoomBookings(number: Int32) returns (bookingsFile: Option<seq<string>>)
      modifies this`bookings
      ensures bookings == RemoveWhere(old(bookings), ForRoom(number))
      ensures bookingsFile == Some(EncodeBookings(bookings))
      ensures old(OneBookingPerSlot(bookings)) ==> OneBookingPerSlot(bookings)
      ensures old(DatesValid()) ==> DatesValid()
    {
      if OneBookingPerSlot(bookings) {
        RemoveWhereDistinct(bookings, ForRoom(number), SlotOf);
      }
      bookings := RemoveWhere(bookings, ForRoom(number));
      bookingsFile := Some(EncodeBookings(bookings));
    }

    /** `rooms.removeIf(rr -> rr.number == roomNum)`, the save, and the
        refresh's sort. */
    method RemoveRoom(number: Int32, showPrice: real -> string) returns (roomsFile: Option<seq<string>>)
      modifies this`rooms
      ensures var left := RemoveWhere(old(rooms), HasNumber(number));
        rooms == SortBy(left, NumberOf) && roomsFile == Some(EncodeRooms(left, showPrice))
        && (old(SortedBy(rooms, NumberOf)) ==> rooms == left)
      ensures old(RoomNumbersDistinct(rooms)) ==> RoomNumbersDistinct(rooms)
    {
      if RoomNumbersDistinct(rooms) {
        RemoveWhereDistinct(rooms, HasNumber(number), NumberOf);
      }
      if SortedBy(rooms, NumberOf) {
        RemoveWhereSorted(rooms, HasNumber(number), NumberOf);
      }
      rooms := RemoveWhere(rooms, HasNumber(number));
      roomsFile := Some(EncodeRooms(rooms, showPrice));
      SortRooms();
    }

    /** `doBook` for a room chosen from the combo box (so it exists) and a
        date from the spinner: the trimmed name must be non-empty and the
        slot free; then the booking is appended and the list saved. */
    method Book(customerText: string, roomNumber: Int32, date: Date)
      returns (outcome: BookOutcome, bookingsFile: Option<seq<string>>)
      requires NumberTaken(rooms, roomNumber) && ValidDate(date)
      modifies this`bookings
      ensures outcome == (if Trim(customerText) == [] then NameRequired
                          else if SlotTaken(old(bookings), roomNumber, date) then AlreadyBooked
                          else Confirmed)
      ensures outcome != Confirmed ==> bookings == old(bookings) && bookingsFile.None?
      ensures outcome == Confirmed ==>
        bookings == old(bookings) + [Booking(roomNumber, Trim(customerText), date)]
        && bookingsFile == Some(EncodeBookings(bookings))
      ensures old(Consistent()) ==> Consistent()
      ensures old(DatesValid()) ==> DatesValid()
    {
      var customer := Trim(customerText);
      if customer == [] {
        return NameRequired, None;
      }
      var already := AnyBookingAt(bookings, roomNumber, date);
      if already {
        return AlreadyBooked, None;
      }
      bookingsFile := AddBooking(Booking(roomNumber, customer, date));
      outcome := Confirmed;
    }

    /** `bookings.add(...)` for a free slot, then the save. */
    method AddBooking(booking: Booking) returns (bookingsFile: Option<seq<string>>)
      requires !SlotTaken(bookings, booking.roomNumber, booking.date)
      modifies this`bookings
      ensures bookings == old(bookings) + [booking]
      ensures bookingsFile == Some(EncodeBookings(bookings))
      ensures old(OneBookingPerSlot(bookings)) ==> OneBookingPerSlot(bookings)
      ensures old(DatesValid()) && ValidDate(booking.date) ==> DatesValid()
    {
      if OneBookingPerSlot(bookings) {
        AppendDistinct(bookings, booking, SlotOf);
      }
      bookings := bookings + [booking];
      bookingsFile := Some(EncodeBookings(bookings));
    }

    /** `cancelSelectedBooking` with the room and the date text of the
        selected row: the text is parsed (an unparsable one stops the
        handler with an exception) and every booking of that slot is
        removed, the others keeping their order; the list is saved. */
    method CancelBooking(roomNumber: Int32, dateText: string) returns (bookingsFile: Option<seq<string>>)
      modifies this`bookings
      ensures ParseDate(dateText).None? ==> bookings == old(bookings) && bookingsFile.None?
      ensures ParseDate(dateText).Some? ==>
        bookings == RemoveWhere(old(bookings), AtSlot(roomNumber, ParseDate(dateText).value))
        && bookingsFile == Some(EncodeBookings(bookings))
      ensures old(Consistent()) ==> Consistent()
      ensures old(DatesValid()) ==> DatesValid()
    {
      var date := ParseDate(dateText);
      if date.None? {
        return None;
      }
      if OneBookingPerSlot(bookings) {
        RemoveWhereDistinct(bookings, AtSlot(roomNumber, date.value), SlotOf);
      }
      bookings := RemoveWhere(bookings, AtSlot(roomNumber, date.value));
      bookingsFile := Some(EncodeBookings(bookings));
    }
  }
}
