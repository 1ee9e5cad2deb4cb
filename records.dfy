/** The two entities of the store, `Room` and `Booking`, the slot a booking
    occupies, and the queries the handlers run over the lists
    (`anyMatch` and `findFirst` on a room and a date). */
module Records {
  import opened Wrappers
  import opened Numbers
  import opened Dates
  import opened Sequences

  /** `price` is a Java `double`; the model never computes with it. */
  datatype Room = Room(number: Int32, roomType: string, price: real)

  datatype Booking = Booking(roomNumber: Int32, customer: string, date: Date)

  /** A (room, date) pair: the unit of booking exclusivity. */
  datatype Slot = Slot(roomNumber: Int32, date: Date)

  function NumberOf(r: Room): int {
    r.number as int
  }

  function SlotOf(b: Booking): Slot {
    Slot(b.roomNumber, b.date)
  }

  /** No two rooms share a number. */
  ghost predicate RoomNumbersDistinct(rooms: seq<Room>) {
    DistinctKeys(rooms, NumberOf)
  }

  /** At most one booking per room per day. */
  ghost predicate OneBookingPerSlot(bookings: seq<Booking>) {
    DistinctKeys(bookings, SlotOf)
  }

  predicate NumberTaken(rooms: seq<Room>, n: Int32) {
    exists i :: 0 <= i < |rooms| && rooms[i].number == n
  }

  predicate SlotTaken(bookings: seq<Booking>, n: Int32, d: Date) {
    exists i :: 0 <= i < |bookings| && bookings[i].roomNumber == n && bookings[i].date == d
  }

  /** The `removeIf` conditions of the delete and cancel handlers. */
  function HasNumber(n: Int32): Room -> bool {
    (r: Room) => r.number == n
  }

  function ForRoom(n: Int32): Booking -> bool {
    (b: Booking) => b.roomNumber == n
  }

  function AtSlot(n: Int32, d: Date): Booking -> bool {
    (b: Booking) => b.roomNumber == n && b.date == d
  }

  /** `bookings.stream().anyMatch(b -> b.roomNumber == n && b.date.equals(d))`. */
  function AnyBookingAt(bookings: seq<Booking>, n: Int32, d: Date): (r: bool)
    ensures r <==> SlotTaken(bookings, n, d)
  {
    if bookings == [] then false
    else if bookings[0].roomNumber == n && bookings[0].date == d then true
    else
      var rest := AnyBookingAt(bookings[1..], n, d);
      assert SlotTaken(bookings, n, d) ==> SlotTaken(bookings[1..], n, d) by {
        if SlotTaken(bookings, n, d) {
          var i :| 0 <= i < |bookings| && bookings[i].roomNumber == n && bookings[i].date == d;
          assert bookings[1..][i - 1] == bookings[i];
        }
      }
      rest
  }

  /** The position `filter(...).findFirst()` stops at: the first booking of
      the slot, or `|bookings|` when there is none. */
  function FirstIndexAt(bookings: seq<Booking>, n: Int32, d: Date): (k: nat)
    ensures k <= |bookings|
    ensures k < |bookings| ==> bookings[k].roomNumber == n && bookings[k].date == d
    ensures forall j :: 0 <= j < k ==> !(bookings[j].roomNumber == n && bookings[j].date == d)
  {
    if bookings == [] then 0
    else if bookings[0].roomNumber == n && bookings[0].date == d then 0
    else 1 + FirstIndexAt(bookings[1..], n, d)
  }

  /** `bookings.stream().filter(slot matches).findFirst()`. */
  function FirstBookingAt(bookings: seq<Booking>, n: Int32, d: Date): (r: Option<Booking>)
    ensures r.None? <==> !SlotTaken(bookings, n, d)
    ensures r.Some? ==> r.value.roomNumber == n && r.value.date == d && r.value in bookings
    ensures r.Some? ==> exists k :: 0 <= k < |bookings| && r.value == bookings[k]
                                    && forall j :: 0 <= j < k ==> !AtSlot(n, d)(bookings[j])
  {
    var k := FirstIndexAt(bookings, n, d);
    if k < |bookings| then Some(bookings[k]) else None
  }

  /** When slots are exclusive, the first booking found is the booking of
      that slot. */
  lemma FirstBookingIsTheBooking(bookings: seq<Booking>, i: nat)
    requires OneBookingPerSlot(bookings) && i < |bookings|
    ensures FirstBookingAt(bookings, bookings[i].roomNumber, bookings[i].date) == Some(bookings[i])
  {
    var k := FirstIndexAt(bookings, bookings[i].roomNumber, bookings[i].date);
    assert SlotOf(bookings[k]) == SlotOf(bookings[i]);
  }

  lemma DistinctKeysTail<T, K>(s: seq<T>, key: T -> K)
    requires DistinctKeys(s, key) && s != []
    ensures DistinctKeys(s[1..], key)
  {
    forall i, j | 0 <= i < j < |s[1..]| ensures key(s[1..][i]) != key(s[1..][j]) {
      assert s[1..][i] == s[i + 1] && s[1..][j] == s[j + 1];
    }
  }

  /** Cancelling a slot in a consistent list removes exactly the one booking
      of that slot when it is taken, and nothing otherwise. */
  lemma {:induction false} CancelRemovesAtMostOne(bookings: seq<Booking>, n: Int32, d: Date)
    requires OneBookingPerSlot(bookings)
    ensures |RemoveWhere(bookings, AtSlot(n, d))| == |bookings| - (if SlotTaken(bookings, n, d) then 1 else 0)
  {
    if bookings != [] {
      var rest := bookings[1..];
      DistinctKeysTail(bookings, SlotOf);
      if AtSlot(n, d)(bookings[0]) {
        forall i | 0 <= i < |rest| ensures !AtSlot(n, d)(rest[i]) {
          assert SlotOf(bookings[0]) != SlotOf(bookings[i + 1]);
        }
        RemoveWhereNothing(rest, AtSlot(n, d));
      } else {
        CancelRemovesAtMostOne(rest, n, d);
        assert SlotTaken(bookings, n, d) <==> SlotTaken(rest, n, d) by {
          if SlotTaken(bookings, n, d) {
            var i :| 0 <= i < |bookings| && bookings[i].roomNumber == n && bookings[i].date == d;
            assert rest[i - 1] == bookings[i];
          }
          if SlotTaken(rest, n, d) {
            var i :| 0 <= i < |rest| && rest[i].roomNumber == n && rest[i].date == d;
            assert bookings[i + 1] == rest[i];
          }
        }
      }
    }
  }
}
