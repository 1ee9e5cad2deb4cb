/** What the tables show: the availability of each room on a date, the
    calendar of who holds each room on a date, and the admin ledger of all
    bookings ordered by date and then room. */
module Views {
  import opened Wrappers
  import opened Numbers
  import opened Dates
  import opened Sequences
  import opened Records

  datatype Status = Booked | Available

  /** A row of the availability table: `Room#`, `Type`, `Price`, `Status`. */
  datatype AvailabilityRow = AvailabilityRow(number: Int32, roomType: string, price: real, status: Status)

  /** A row of the calendar table: `Room#`, `Type`, `Customer`. */
  datatype CalendarRow = CalendarRow(number: Int32, roomType: string, customer: string)

  /** A row of the admin table: `Room#`, `Customer` and the date as text. */
  datatype LedgerRow = LedgerRow(roomNumber: Int32, customer: string, dateText: string)

  /** The customer the calendar shows for a room on a date: that of the
      first booking of the slot, or the empty text when it is free. */
  function CustomerAt(bookings: seq<Booking>, n: Int32, d: Date): (c: string)
    ensures !SlotTaken(bookings, n, d) ==> c == ""
    ensures SlotTaken(bookings, n, d) ==>
      exists k :: 0 <= k < |bookings| && AtSlot(n, d)(bookings[k]) && c == bookings[k].customer
                  && forall j :: 0 <= j < k ==> !AtSlot(n, d)(bookings[j])
  {
    var k := FirstIndexAt(bookings, n, d);
    if k < |bookings| then bookings[k].customer else ""
  }

  /** In a list with one booking per slot, the calendar shows the customer
      of the slot's booking. */
  lemma CustomerOfTheBooking(bookings: seq<Booking>, i: nat)
    requires OneBookingPerSlot(bookings) && i < |bookings|
    ensures CustomerAt(bookings, bookings[i].roomNumber, bookings[i].date) == bookings[i].customer
  {
    FirstBookingIsTheBooking(bookings, i);
  }

  /** The ledger's sort key: `Comparator.comparing(date).thenComparing(room)`
      as one integer, the room number shifted to be non-negative. */
  function LedgerKey(b: Booking): int {
    DateKey(b.date) * 0x1_0000_0000 + (b.roomNumber as int + 0x8000_0000)
  }

  /** For real dates the key orders bookings by date and, on the same
      date, by room number. */
  lemma LedgerKeyOrder(a: Booking, b: Booking)
    requires ValidDate(a.date) && ValidDate(b.date)
    ensures LedgerKey(a) <= LedgerKey(b)
        <==> (DateLeq(a.date, b.date) && a.date != b.date) || (a.date == b.date && a.roomNumber <= b.roomNumber)
  {
    DateKeyOrder(a.date, b.date);
    DateKeyOrder(b.date, a.date);
    LexicographicKey(DateKey(a.date), a.roomNumber as int + 0x8000_0000,
                     DateKey(b.date), b.roomNumber as int + 0x8000_0000, 0x1_0000_0000);
  }

  /** Booking order of the admin ledger (a stable sort). */
  function LedgerOrder(bookings: seq<Booking>): seq<Booking> {
    SortBy(bookings, LedgerKey)
  }

  /** The ledger lists every booking once, in (date, room) order; bookings
      of the same slot keep their list order. */
  lemma LedgerOrderSorted(bookings: seq<Booking>)
    requires forall i :: 0 <= i < |bookings| ==> ValidDate(bookings[i].date)
    ensures multiset(LedgerOrder(bookings)) == multiset(bookings)
    ensures forall i, j :: 0 <= i < j < |bookings| ==>
      var a, b := LedgerOrder(bookings)[i], LedgerOrder(bookings)[j];
      (DateLeq(a.date, b.date) && a.date != b.date) || (a.date == b.date && a.roomNumber <= b.roomNumber)
  {
    var s := LedgerOrder(bookings);
    SortBySorted(bookings, LedgerKey);
    forall i, j | 0 <= i < j < |bookings|
      ensures (DateLeq(s[i].date, s[j].date) && s[i].date != s[j].date)
           || (s[i].date == s[j].date && s[i].roomNumber <= s[j].roomNumber)
    {
      assert s[i] in multiset(bookings) && s[j] in multiset(bookings);
      var p :| 0 <= p < |bookings| && bookings[p] == s[i];
      var q :| 0 <= q < |bookings| && bookings[q] == s[j];
      LedgerKeyOrder(s[i], s[j]);
    }
  }

  /** Two bookings of the same slot appear in the ledger in list order. */
  lemma LedgerOrderStable(bookings: seq<Booking>, b: Booking)
    ensures WithKey(LedgerOrder(bookings), LedgerKey, LedgerKey(b)) == WithKey(bookings, LedgerKey, LedgerKey(b))
  {
    SortByStable(bookings, LedgerKey, LedgerKey(b));
  }

  function LedgerRowOf(b: Booking): LedgerRow {
    LedgerRow(b.roomNumber, b.customer, FormatDate(b.date))
  }

  /** The admin table: the ledger order, dates written `yyyy-MM-dd`. */
  function LedgerRows(bookings: seq<Booking>): (rows: seq<LedgerRow>)
    ensures |rows| == |bookings|
    ensures forall i :: 0 <= i < |rows| ==> rows[i] == LedgerRowOf(LedgerOrder(bookings)[i])
  {
    RowsOfLedger(LedgerOrder(bookings))
  }

  function RowsOfLedger(bookings: seq<Booking>): (rows: seq<LedgerRow>)
    ensures |rows| == |bookings|
    ensures forall i :: 0 <= i < |rows| ==> rows[i] == LedgerRowOf(bookings[i])
  {
    if bookings == [] then [] else [LedgerRowOf(bookings[0])] + RowsOfLedger(bookings[1..])
  }

  /** The cancel handler reads the room and the date text back from a row;
      for a real date the text parses to the booking's own date, so the
      row names the booking's slot. */
  lemma LedgerRowNamesItsSlot(bookings: seq<Booking>, i: nat)
    requires forall k :: 0 <= k < |bookings| ==> ValidDate(bookings[k].date)
    requires i < |bookings|
    ensures var row := LedgerRows(bookings)[i];
      exists k :: 0 <= k < |bookings|
        && row.roomNumber == bookings[k].roomNumber
        && ParseDate(row.dateText) == Some(bookings[k].date)
  {
    var s := LedgerOrder(bookings);
    assert s[i] in multiset(bookings);
    var k :| 0 <= k < |bookings| && bookings[k] == s[i];
    ParseFormat(s[i].date);
  }

  /** `refreshAvailability`: one row per room, in list order, Booked
      exactly when some booking holds that room on that date. */
  method Availability(rooms: seq<Room>, bookings: seq<Booking>, date: Date) returns (rows: seq<AvailabilityRow>)
    ensures |rows| == |rooms|
    ensures forall i :: 0 <= i < |rooms| ==>
      rows[i].number == rooms[i].number && rows[i].roomType == rooms[i].roomType
      && rows[i].price == rooms[i].price
      && (rows[i].status == Booked <==> SlotTaken(bookings, rooms[i].number, date))
  {
    rows := [];
    var i := 0;
    while i < |rooms|
      invariant 0 <= i <= |rooms| && |rows| == i
      invariant forall k :: 0 <= k < i ==>
        rows[k].number == rooms[k].number && rows[k].roomType == rooms[k].roomType
        && rows[k].price == rooms[k].price
        && (rows[k].status == Booked <==> SlotTaken(bookings, rooms[k].number, date))
    {
      var r := rooms[i];
      var booked := AnyBookingAt(bookings, r.number, date);
      rows := rows + [AvailabilityRow(r.number, r.roomType, r.price, if booked then Booked else Available)];
      i := i + 1;
    }
  }

  /** The Show Bookings handler of the calendar: one row per room, in
      list order, with the customer of the first booking of the slot or
      the empty text. */
  method Calendar(rooms: seq<Room>, bookings: seq<Booking>, date: Date) returns (rows: seq<CalendarRow>)
    ensures |rows| == |rooms|
    ensures forall i :: 0 <= i < |rooms| ==>
      rows[i].number == rooms[i].number && rows[i].roomType == rooms[i].roomType
      && rows[i].customer == CustomerAt(bookings, rooms[i].number, date)
  {
    rows := [];
    var i := 0;
    while i < |rooms|
      invariant 0 <= i <= |rooms| && |rows| == i
      invariant forall k :: 0 <= k < i ==>
        rows[k].number == rooms[k].number && rows[k].roomType == rooms[k].roomType
        && rows[k].customer == CustomerAt(bookings, rooms[k].number, date)
    {
      var r := rooms[i];
      var found := FirstBookingAt(bookings, r.number, date);
      var customer := if found.Some? then found.value.customer else "";
      assert found.Some? ==> found.value == bookings[FirstIndexAt(bookings, r.number, date)];
      rows := rows + [CalendarRow(r.number, r.roomType, customer)];
      i := i + 1;
    }
  }
}
