# Hotel reservation system: a verified model of its data core

The hotel reservation desk keeps two lists in memory, rooms
`(number, type, price)` and bookings `(room number, customer, date)`. It
saves both lists to CSV files and reads them back at start-up. Its
handlers add and delete rooms, book a room for a date, cancel a booking,
and sort the room list. Its tables show each room's availability on a date,
who holds each room on a date, and an admin ledger ordered by date and
room. It exports the bookings as CSV and as a fixed-width text report. A
login dialog decides who is an administrator.

This project models that core in Dafny and proves what it promises.

- `strings.dfy` (`Strings`): Java's `trim()` (strips every character up to
  U+0020), `split(",", -1)` (empty pieces kept) and joining with a
  separator, with the round-trip between split and join.
- `numbers.dfy` (`Numbers`): 32-bit `int` (`Int32`), `Integer.toString`
  and `Integer.parseInt` including its range check. `parseInt` undoes
  `toString` for every `int`. The converse does not hold: `parseInt` also
  accepts texts such as `+5` and `007`, which `toString` never writes.
- `dates.dfy` (`Dates`): `LocalDate` as (year, month, day) with month
  lengths and leap years. Covers the `yyyy-MM-dd` formatter and
  `LocalDate.parse` with that pattern. The parser uses java.time's default
  smart resolver, so a day 29–31 past the end of its month is moved to the
  month's last day.
- `sequences.dfy` (`Sequences`): `removeIf`, the stable `List.sort` /
  `Stream.sorted` by an integer key, and the "distinct keys" invariant.
- `records.dfy` (`Records`): `Room`, `Booking`, the (room, date) slot, and
  the `anyMatch` / `findFirst` slot queries.
- `textfiles.dfy` (`TextFiles`): the text `Files.write` makes from a list
  of lines, and `Files.readAllLines`, which ends a line at "\n", "\r" or
  "\r\n".
- `codec.dfy` (`Codec`): the line formats of `rooms.csv` and
  `bookings.csv`, the load loop that stops at the first parse exception,
  and the CSV export.
- `views.dfy` (`Views`): the availability table, the calendar and the
  sorted admin ledger.
- `report.dfy` (`Report`): `truncate` and the `%-10s %-25s %-12s` rows of
  the PDF report.
- `login.dfy` (`Login`): the login decision.
- `store.dfy` (`Hotel`): the class `Store` with the two lists as fields,
  and the handlers that change them in place. Each handler returns the
  lines it writes to a file. Each one keeps the two invariants "room
  numbers are distinct" and "at most one booking per room and date".

A room's price is a Java `double` and is never computed with. The model
treats it as an opaque `real`. Its text conversions are parameters:
`showPrice` stands for `Double.toString` and `parsePrice` for
`Double.parseDouble`. The rooms round trip assumes, for each price in the
list, that its text has no comma or surrounding blanks and parses back to
that price (the hypothesis `PriceTextRoundTrips`). It is stated price by
price because no text conversion can be inverse on every `real`. Java
guarantees that `Double.parseDouble(Double.toString(d)) == d` for every
finite `double`.

Where the code and its documentation differ, the model follows the code:

- Deleting a room or cancelling a booking never reports "not found": a
  missing room or slot just removes nothing.
- Booking never checks that the room exists. The room comes from a combo
  box filled from the room list, so `Store.Book` requires that the room
  exists.
- A parse error while loading is caught outside the loop. The records read
  before the bad line stay loaded, and the bad line and every later line
  are dropped.
- The PDF report lists the bookings in list order, not in ledger order.
- After adding a room, the file is written before the list is sorted. The
  saved file therefore has the new room last, while the list in memory is
  sorted.
- After deleting a room, the file is written before the list is sorted
  too, but removing a room keeps the order of the rest. The list is sorted
  on start-up (`reloadRoomsModel`, line 223) and after every add, so the
  deleted-from file is in number order whenever the list was.
- A customer name may contain a comma, and the line format does not quote
  it. Such a booking is saved as four fields, and the next start reads the
  text after the comma as the date field. When that text is not a date,
  the load stops at that line: the booking and every later one are lost
  (`Codec.CommaInCustomerCutsLoad`). When it is a date, the line loads as a
  different booking: customer `x,2024-01-01` reloads as customer `x` on
  2024-01-01 (`Codec.CommaBeforeDateRebooks`).
- A text field keeps a pasted carriage return, and the line format writes
  it as is. `readAllLines` then cuts the booking's line in two. Neither part
  has three fields, so both are skipped and the booking is lost
  (`Codec.CarriageReturnInCustomerIsLost`). The file round trips therefore
  require that no customer, room type or price text holds a line break.

## Model

| member | source | states |
|---|---|---|
| `Strings.Trim` | Hotel-Reservation-System.java:93 | the result is no longer than the input and has no character up to U+0020 at either end |
| `Strings.TrimKeepsSlice` | Hotel-Reservation-System.java:93 | the result is a slice of the input: a prefix of a suffix, and every character dropped at either end is at most U+0020 |
| `Strings.IsBlank` | Hotel-Reservation-System.java:93 | `ln.trim().isEmpty()`; its partner `Strings.BlankIffAllTrimmable` shows it holds exactly when every character is at most U+0020 |
| `Strings.BlankIffAllTrimmable` | Hotel-Reservation-System.java:93 | `ln.trim().isEmpty()` holds exactly when every character of the line is at most U+0020 |
| `Strings.TrimIdempotent` | Hotel-Reservation-System.java:97 | trimming an already trimmed field changes nothing |
| `Strings.Split` | Hotel-Reservation-System.java:94 | `split(",", -1)` gives at least one piece and no piece holds the separator |
| `Strings.Join` | Hotel-Reservation-System.java:135 | the `a + "," + b + "," + c` concatenation; its partners `Strings.JoinSplit` and `Strings.SplitJoin` make it the inverse of `split` on separator-free fields |
| `Strings.JoinSplit` | Hotel-Reservation-System.java:94 | splitting loses nothing: joining the pieces with the separator gives back the line |
| `Strings.SplitJoin` | Hotel-Reservation-System.java:135 | a line joined from separator-free fields splits back into exactly those fields |
| `Numbers.Digits` | Hotel-Reservation-System.java:135 | the decimal digits of a number are at least one digit, with no leading zero |
| `Numbers.DigitsValueOfDigits` | Hotel-Reservation-System.java:135 | the digits of `n` read back as `n` |
| `Numbers.FormatInt` | Hotel-Reservation-System.java:135 | `Integer.toString` gives a non-empty text of digits and a minus sign |
| `Numbers.ParseInt` | Hotel-Reservation-System.java:123 | a parsed text is an optional sign followed by at least one digit and nothing else, and a negative result has a minus sign; its partners `Numbers.ParseUnsigned` and `Numbers.ParseNegative` give the value |
| `Numbers.ParseUnsigned` | Hotel-Reservation-System.java:123 | a digit string whose value is below 2147483648 parses to that value |
| `Numbers.ParseNegative` | Hotel-Reservation-System.java:123 | a minus sign and a digit string whose value is at most 2147483648 parse to minus that value |
| `Numbers.IntRoundTrip` | Hotel-Reservation-System.java:123 | `Integer.parseInt(Integer.toString(n)) == n` for every 32-bit `n` |
| `Numbers.ParseIntAcceptsNonCanonical` | Hotel-Reservation-System.java:123 | `+5` and `007` parse as 5 and 7, which print as `5` and `7`, so `parseInt` is not injective and `toString` does not undo it |
| `Numbers.ParseIntRejectsLetters` | Hotel-Reservation-System.java:123 | a text starting with a non-digit other than a sign is a `NumberFormatException` |
| `Numbers.ParseIntRejectsOverflow` | Hotel-Reservation-System.java:123 | 2147483648 is out of range and is refused, while -2147483648 parses |
| `Dates.DaysInMonth` | Hotel-Reservation-System.java:125 | every month has 28 to 31 days |
| `Dates.LeapYearCases` | Hotel-Reservation-System.java:125 | February has 29 days in 2000 and 2024 and 28 in 1900 and 2023 |
| `Dates.ParseDate` | Hotel-Reservation-System.java:125 | a parsed date has the `dddd-dd-dd` shape and is a real calendar date |
| `Dates.FormatDate` | Hotel-Reservation-System.java:135 | `format(DATE_FMT)`; its partners `Dates.FormatDateChars` (only digits and dashes) and `Dates.ParseFormat` (`parse` gives the date back) |
| `Dates.ParseFormat` | Hotel-Reservation-System.java:125 | parsing the formatted text of a valid date gives the date back |
| `Dates.FormatParse` | Hotel-Reservation-System.java:135 | formatting a parsed date gives back the text, unless the day had to be moved to the end of the month |
| `Dates.ParseClampsDay` | Hotel-Reservation-System.java:125 | `2023-02-30` parses as 2023-02-28, the same date as `2023-02-28` |
| `Dates.ParseRejects` | Hotel-Reservation-System.java:125 | month 13, day 32, year 0 and unpadded fields are parse errors |
| `Dates.DateKeyOrder` | Hotel-Reservation-System.java:425 | the integer key of valid dates orders them as `LocalDate.compareTo` does, and equal keys mean equal dates |
| `TextFiles.LineEnd` | Hotel-Reservation-System.java:118 | the first line of a text ends at its first line break, and holds none |
| `TextFiles.ReadAllLines` | Hotel-Reservation-System.java:118 | no line `readAllLines` returns holds a line break |
| `TextFiles.ReadWrite` | Hotel-Reservation-System.java:91-137 | lines without line breaks, written with `Files.write` and read with `readAllLines`, come back unchanged |
| `TextFiles.CarriageReturnSplits` | Hotel-Reservation-System.java:118 | a line holding a lone "\r" is read back as two lines |
| `Sequences.RemoveWhere` | Hotel-Reservation-System.java:267 | `removeIf` keeps exactly the elements that fail the condition |
| `Sequences.RemoveWhereAppend` | Hotel-Reservation-System.java:270 | removal works piecewise, so the kept elements keep their relative order |
| `Sequences.RemoveWhereCount` | Hotel-Reservation-System.java:436 | every matching element is gone and every other element keeps its number of occurrences |
| `Sequences.RemoveWhereDistinct` | Hotel-Reservation-System.java:270 | removing elements keeps keys distinct |
| `Sequences.RemoveWhereSorted` | Hotel-Reservation-System.java:270 | removing elements from a sorted list leaves it sorted |
| `Sequences.AppendDistinct` | Hotel-Reservation-System.java:251 | appending an element with a new key keeps keys distinct |
| `Sequences.SortBy` | Hotel-Reservation-System.java:283 | the sort is a permutation |
| `Sequences.SortBySorted` | Hotel-Reservation-System.java:283 | the sorted list is in ascending key order |
| `Sequences.SortByStable` | Hotel-Reservation-System.java:425 | elements with equal keys keep their relative order, as `List.sort` promises |
| `Sequences.SortByOfSorted` | Hotel-Reservation-System.java:283 | sorting a list that is already sorted changes nothing |
| `Sequences.SortByDistinct` | Hotel-Reservation-System.java:283 | sorting keeps any key distinct that was distinct |
| `Sequences.MapLines` | Hotel-Reservation-System.java:451 | the `for` loop that adds one line per element gives one line per element, in list order |
| `Records.AnyBookingAt` | Hotel-Reservation-System.java:337 | `anyMatch` on room and date is true exactly when some booking holds that slot |
| `Records.FirstIndexAt` | Hotel-Reservation-System.java:384 | `findFirst` stops at a booking of the slot with none before it, or runs off the end |
| `Records.FirstBookingAt` | Hotel-Reservation-System.java:384 | the result is empty exactly when the slot is free, and is otherwise the first booking of that slot in the list |
| `Records.FirstBookingIsTheBooking` | Hotel-Reservation-System.java:384 | with one booking per slot, the booking found is the slot's booking |
| `Records.CancelRemovesAtMostOne` | Hotel-Reservation-System.java:436 | with one booking per slot, cancelling removes one booking if the slot is taken and none otherwise |
| `Codec.Loaded` | Hotel-Reservation-System.java:119-129 | a load yields at most one record per line; its partners `Codec.LoadedAppend` and `Codec.LoadedStopsAtMalformed` say which lines count |
| `Codec.LoadedAppend` | Hotel-Reservation-System.java:119-129 | a file read in two parts: the second part only counts when the first has no malformed line |
| `Codec.LoadedStopsAtMalformed` | Hotel-Reservation-System.java:114-130 | a malformed line keeps exactly the records of the earlier lines and drops it and every later line |
| `Codec.LoadedIgnoresSkipped` | Hotel-Reservation-System.java:119-122 | a skipped line anywhere in the file does not change what is loaded |
| `Codec.BookingLineSkipped` | Hotel-Reservation-System.java:120-122 | a booking line is skipped exactly when it is blank or has fewer than three fields |
| `Codec.RoomLineSkipped` | Hotel-Reservation-System.java:93-95 | a room line is skipped exactly when it is blank or has fewer than three fields |
| `Codec.LoadLines` | Hotel-Reservation-System.java:92-102 | the load loop yields what the line-by-line definition of loading gives |
| `Codec.EncodeAll` | Hotel-Reservation-System.java:107-109 | `stream().map(...)` gives one line per record, in list order |
| `Codec.DecodeBookingLine` | Hotel-Reservation-System.java:120-126 | a decoded booking has a clean customer field and a real date |
| `Codec.EncodeBooking` | Hotel-Reservation-System.java:135 | the `saveBookings` line; its partner `Codec.BookingLineRoundTrip` shows a storable booking is read back from it unchanged |
| `Codec.BookingLineRoundTrip` | Hotel-Reservation-System.java:114-137 | a booking with a comma-free, already trimmed customer and a valid date is read back from its line unchanged |
| `Codec.BookingsRoundTrip` | Hotel-Reservation-System.java:114-137 | `saveBookings` then `loadBookings` gives the list back in order, as lines and through the file's text, when every booking is storable and no customer holds a line break |
| `Codec.BookingFileRoundTrip` | Hotel-Reservation-System.java:114-137 | a file written from one storable booking whose customer holds no line break loads as that booking |
| `Codec.BookingLinesRoundTrip` | Hotel-Reservation-System.java:119-135 | storable bookings load back from their list of lines, in order |
| `Codec.BookingOneLine` | Hotel-Reservation-System.java:135 | a booking's line holds no line break when its customer holds none |
| `Codec.CarriageReturnInCustomerIsLost` | Hotel-Reservation-System.java:114-137 | a customer `a` + "\r" + `b` is saved as one line that reads back as two skipped lines, so the booking is lost |
| `Codec.ReloadIsStable` | Hotel-Reservation-System.java:114-137 | whatever a load gives, saving and loading it again gives the same list |
| `Codec.DecodeBookingMalformed` | Hotel-Reservation-System.java:123-125 | a line whose number or date field does not parse is a parse error |
| `Codec.CommaShiftsFields` | Hotel-Reservation-System.java:121 | a customer `a,b` makes the saved line split into four fields |
| `Codec.CommaBeforeDateRebooks` | Hotel-Reservation-System.java:119-126 | when the text after the comma reads as a date, the line loads as a booking of customer `a` on that date |
| `Codec.DecodeBookingLeading` | Hotel-Reservation-System.java:121-126 | a booking line of three or more fields is decoded from its first three; later fields are ignored |
| `Codec.CommaInCustomerIsMalformed` | Hotel-Reservation-System.java:125 | when the text after the comma is not a date, that line is a parse error |
| `Codec.CommaInCustomerCutsLoad` | Hotel-Reservation-System.java:114-130 | such a booking, and every booking after it, is lost on the next load |
| `Codec.ExportLines` | Hotel-Reservation-System.java:449-451 | one more line than bookings: the header `room,customer,date`, then booking `i`'s line at position `i + 1` |
| `Codec.ExportCsv` | Hotel-Reservation-System.java:449-451 | the export is the header line followed by one line per booking, in list order |
| `Codec.ExportDoesNotReload` | Hotel-Reservation-System.java:450 | the export's header reads as a malformed booking, so loading the export as a bookings file gives nothing |
| `Codec.DecodeRoomLine` | Hotel-Reservation-System.java:93-99 | a decoded room has a clean type field |
| `Codec.EncodeRoom` | Hotel-Reservation-System.java:108 | the `saveRooms` line; its partner `Codec.RoomLineRoundTrip` shows a room is read back from it unchanged |
| `Codec.RoomLineRoundTrip` | Hotel-Reservation-System.java:87-110 | a room with a clean type whose price text round-trips is read back from its line unchanged |
| `Codec.RoomsRoundTrip` | Hotel-Reservation-System.java:87-110 | `saveRooms` then `loadRooms` gives the list back, as lines and through the file's text, when every type is clean, no type or price text holds a line break, and every price text round-trips |
| `Codec.RoomOneLine` | Hotel-Reservation-System.java:108 | a room's line holds no line break when its type and price text hold none |
| `Views.CustomerAt` | Hotel-Reservation-System.java:384-386 | the calendar shows "" for a free slot, and otherwise the customer of the slot's first booking |
| `Views.CustomerOfTheBooking` | Hotel-Reservation-System.java:384-386 | with one booking per slot, the calendar shows the customer of that slot's booking |
| `Views.LedgerKey` | Hotel-Reservation-System.java:425 | the comparator as one integer; its partner `Views.LedgerKeyOrder` shows it orders by date, then room number |
| `Views.LedgerKeyOrder` | Hotel-Reservation-System.java:425 | the ledger key orders bookings by date and, on the same date, by room number |
| `Views.LedgerOrder` | Hotel-Reservation-System.java:425 | `sorted(...)` by that key; its partners `Views.LedgerOrderSorted` (a permutation in date, then room order) and `Views.LedgerOrderStable` |
| `Views.LedgerOrderSorted` | Hotel-Reservation-System.java:425 | the ledger lists every booking once, ordered by date and then room |
| `Views.LedgerOrderStable` | Hotel-Reservation-System.java:425 | bookings of the same slot keep their list order in the ledger |
| `Views.LedgerRows` | Hotel-Reservation-System.java:425-426 | one admin row per booking, in ledger order, with the date as `yyyy-MM-dd` text |
| `Views.LedgerRowNamesItsSlot` | Hotel-Reservation-System.java:432-436 | the room and date text the cancel handler reads from a row name the slot of a real booking |
| `Views.Availability` | Hotel-Reservation-System.java:332-340 | one row per room in list order, marked Booked exactly when some booking holds that room on that date |
| `Views.Calendar` | Hotel-Reservation-System.java:379-388 | one row per room in list order, with the customer of the slot's first booking or "" |
| `Report.Truncate` | Hotel-Reservation-System.java:512 | a text that fits is returned as is; a longer one becomes its first `n-3` characters and "...", exactly `n` long |
| `Report.TruncateFits` | Hotel-Reservation-System.java:512 | the result is never longer than `n` |
| `Report.PadRight` | Hotel-Reservation-System.java:492 | `%-Ns` gives the text followed by spaces up to width `N`, and keeps a longer text whole |
| `Report.FormatRow` | Hotel-Reservation-System.java:492 | `%-10s %-25s %-12s`; its partner `Report.RowColumns` gives the 49-character layout |
| `Report.RowColumns` | Hotel-Reservation-System.java:492 | when each text fits its column, a row is 49 characters and the texts start at offsets 0, 11 and 37 |
| `Report.RoomNumberFits` | Hotel-Reservation-System.java:501 | room numbers from -999999999 up fit the ten-character column |
| `Report.ReportRow` | Hotel-Reservation-System.java:501 | the row of one booking; its partner `Report.ReportRowLayout` places number, cut customer and date |
| `Report.ReportRowLayout` | Hotel-Reservation-System.java:501 | a booking's row holds its room number at offset 0, its customer cut to 25 characters at offset 11 and its date at offset 37 |
| `Report.ReportText` | Hotel-Reservation-System.java:484-504 | the report is the title, the header row, then one row per booking in list order |
| `Report.ReportLines` | Hotel-Reservation-System.java:484-504 | the report loop writes exactly that text |
| `Login.Login` | Hotel-Reservation-System.java:162-182 | a guest is "Guest" and not an admin; a login succeeds exactly when the trimmed username is non-empty, and is an admin exactly for "admin" with password "admin123" |
| `Login.AdminNeedsPassword` | Hotel-Reservation-System.java:165-172 | "admin" with any other password logs in as an ordinary user |
| `Login.UsernameIsTrimmed` | Hotel-Reservation-System.java:163 | blanks around the username do not matter |
| `Hotel.SampleRooms` | Hotel-Reservation-System.java:56-60 | the three sample rooms have distinct numbers and are in number order |
| `Hotel.BookedLineReloads` | Hotel-Reservation-System.java:343-352 | a booking made under a comma-free name is saved as a line that decodes as the same booking; when the name also has no line break, the file of that line loads back as the booking |
| `Hotel.Store.constructor` | Hotel-Reservation-System.java:50-60 | start-up loads both files (a missing file gives an empty list) and seeds the sample rooms when no room was loaded |
| `Hotel.Store.LoadRooms` | Hotel-Reservation-System.java:87-103 | the rooms become the loaded prefix of `rooms.csv`, or none when the file is missing |
| `Hotel.Store.LoadBookings` | Hotel-Reservation-System.java:114-130 | the bookings become the loaded prefix of `bookings.csv`, or none when the file is missing; every date is valid |
| `Hotel.Store.SeedSampleRooms` | Hotel-Reservation-System.java:56-60 | the sample rooms replace an empty room list; a non-empty list is left as it is |
| `Hotel.Store.SortRooms` | Hotel-Reservation-System.java:281-283 | the room list is sorted by number in place: a permutation in ascending order, unchanged when already sorted, distinct numbers kept |
| `Hotel.Store.HasRoom` | Hotel-Reservation-System.java:250 | the duplicate-number loop finds a room exactly when some room has the number |
| `Hotel.Store.AddRoom` | Hotel-Reservation-System.java:244-256 | invalid number or price, then empty trimmed type, then a taken number each reject and change nothing; otherwise the room is appended, the file is written in appended order and the list is sorted; room numbers stay distinct |
| `Hotel.Store.DeleteRoom` | Hotel-Reservation-System.java:258-274 | Cancel changes nothing; any other answer removes every room with the number, and only Yes also removes that room's bookings; the invariants are kept |
| `Hotel.Store.RemoveRoomBookings` | Hotel-Reservation-System.java:266-269 | exactly the bookings of the room are removed, the rest keep their order, and the bookings file is written |
| `Hotel.Store.RemoveRoom` | Hotel-Reservation-System.java:270-273 | every room with the number is removed, the file gets the remaining rooms, and the list is sorted; a sorted list keeps its order |
| `Hotel.Store.Book` | Hotel-Reservation-System.java:342-358 | an empty trimmed name or a taken slot rejects and changes nothing; otherwise exactly one booking is appended; one booking per slot is kept |
| `Hotel.Store.AddBooking` | Hotel-Reservation-System.java:352-353 | a booking for a free slot is appended and saved, keeping one booking per slot |
| `Hotel.Store.CancelBooking` | Hotel-Reservation-System.java:429-440 | an unparsable date text changes nothing; otherwise exactly the bookings of that slot are removed, the rest keep their order, and the file is written |

## Left out

- The Swing user interface is left out: windows, tables, spinners, combo boxes, messages and the stored selection. A dialog answer becomes an input, and a table becomes a list of rows.
- File-system calls are left out. A missing file is `None`, a file read is a list of lines, and a written file is returned as its lines. The file text between them is modelled only in the round-trip lemmas (`TextFiles`). The line separator is taken as "\n", and UTF-8 encoding and I/O exceptions are not modelled.
- PDFBox is left out: the document, fonts and page breaks (`y < 60`), which are floating-point layout. Only the text of the report lines is modelled.
- `Double.parseDouble` and `Double.toString` are parameters, not models, because they are floating point.
- Converting the spinner's `Date` through `ZoneId.systemDefault()` is left out, because it depends on time zones and the clock. Booking and the two tables take a `Date` directly.
- `Numbers.ParseInt` reads ASCII digits only; the non-ASCII Unicode digits that `Integer.parseInt` also accepts are not modelled.
- `Dates.ParseDate` reads years 1 to 9999 only; the `+`-signed years above 9999 are not modelled. `Hotel.Store.Book` likewise requires a date with a year from 1 to 9999. Dates outside years 1 to 9999, which the unbounded date spinner (lines 296-297) allows, are not modelled.
- The combo-box text `"<number> - <type>"` and its parsing back to a room number in `doBook` are left out. The booked room number is an input, and the room's existence is a precondition.
- The "No rooms." branch of `doBook` is left out, because the precondition excludes it.
- The empty-selection returns (`getSelectedRow() == -1`) of the delete and cancel handlers are left out, because they are UI state.
- The admin table shown to the cancel handler can be stale after a new booking; the handler's room and date text are inputs.
- The Save Rooms button (line 276) writes `EncodeRooms` of the current list and changes nothing, so no member models it on its own.
- The message texts of the dialogs are left out; the outcomes are datatypes.
- `truncate` and the report widths count characters, while Java counts UTF-16 code units; the two differ only for characters outside the Basic Multilingual Plane.
- The second `DATE_FMT` declaration and the missing `HotelAppGui` class are build defects outside the logic, and are not modelled.
- `Codec.RoomLineRoundTrip`: holds only under the per-price hypothesis `PriceTextRoundTrips`, because `Double.toString` and `Double.parseDouble` are parameters.
