/** The line format of `rooms.csv`, `bookings.csv` and the CSV export:
    fields joined by commas with no quoting, read back by trimming,
    `split(",", -1)`, `Integer.parseInt`, `Double.parseDouble` and
    `LocalDate.parse`. */
module Codec {
  import opened Wrappers
  import opened Strings
  import opened Numbers
  import opened Dates
  import opened Records
  import opened Sequences
  import opened TextFiles

  /** What one line of a file contributes: nothing (a blank line or one with
      fewer than three fields), a record, or a parse exception. */
  datatype LineResult<T> = Skip | Row(value: T) | Malformed

  /** The load loop: records are appended line by line, and the first parse
      exception leaves the loop (the `catch` is outside it), so what was
      decoded before stays and the rest of the file is dropped. */
  function Loaded<T>(lines: seq<string>, decode: string -> LineResult<T>): (rows: seq<T>)
    ensures |rows| <= |lines|
  {
    if lines == [] then []
    else match decode(lines[0])
      case Skip => Loaded(lines[1..], decode)
      case Row(x) => [x] + Loaded(lines[1..], decode)
      case Malformed => []
  }

  predicate NoMalformed<T>(lines: seq<string>, decode: string -> LineResult<T>) {
    forall i :: 0 <= i < |lines| ==> !decode(lines[i]).Malformed?
  }

  /** A skipped line, wherever it stands, does not change what is loaded. */
  lemma LoadedIgnoresSkipped<T>(before: seq<string>, line: string, after: seq<string>, decode: string -> LineResult<T>)
    requires decode(line).Skip?
    ensures Loaded(before + [line] + after, decode) == Loaded(before + after, decode)
  {
    LoadedAppend(before, [line] + after, decode);
    LoadedAppend(before, after, decode);
    assert before + [line] + after == before + ([line] + after);
    assert ([line] + after)[1..] == after;
  }

  /** Loading a file in two parts: the second part only counts when the
      first had no malformed line. */
  lemma {:induction false} LoadedAppend<T>(a: seq<string>, b: seq<string>, decode: string -> LineResult<T>)
    ensures Loaded(a + b, decode)
         == if NoMalformed(a, decode) then Loaded(a, decode) + Loaded(b, decode) else Loaded(a, decode)
  {
    if a == [] {
      assert a + b == b;
    } else {
      assert (a + b)[0] == a[0] && (a + b)[1..] == a[1..] + b;
      LoadedAppend(a[1..], b, decode);
      NoMalformedCons(a, decode);
    }
  }

  lemma NoMalformedCons<T>(a: seq<string>, decode: string -> LineResult<T>)
    requires a != []
    ensures NoMalformed(a, decode) <==> !decode(a[0]).Malformed? && NoMalformed(a[1..], decode)
  {
    if !decode(a[0]).Malformed? && NoMalformed(a[1..], decode) {
      forall i | 0 <= i < |a| ensures !decode(a[i]).Malformed? {
        if i > 0 { assert a[i] == a[1..][i - 1]; }
      }
    }
  }

  /** A malformed line keeps exactly what the lines before it gave and
      drops it and every line after it. */
  lemma LoadedStopsAtMalformed<T>(before: seq<string>, bad: string, after: seq<string>, decode: string -> LineResult<T>)
    requires decode(bad).Malformed?
    ensures Loaded(before + [bad] + after, decode) == Loaded(before, decode)
  {
    LoadedAppend(before, [bad] + after, decode);
    assert before + [bad] + after == before + ([bad] + after);
  }

  /** One turn of the load loop at line `i`: what the rest of the file
      gives, from what line `i` decodes to. */
  lemma LoadedStep<T>(lines: seq<string>, i: nat, decode: string -> LineResult<T>)
    requires i < |lines|
    ensures decode(lines[i]).Skip? ==> Loaded(lines[i..], decode) == Loaded(lines[i + 1..], decode)
    ensures decode(lines[i]).Row? ==> Loaded(lines[i..], decode) == [decode(lines[i]).value] + Loaded(lines[i + 1..], decode)
    ensures decode(lines[i]).Malformed? ==> Loaded(lines[i..], decode) == []
  {
    assert lines[i..][0] == lines[i] && lines[i..][1..] == lines[i + 1..];
  }

  /** The load loop itself: `for (String ln : lines)`, appending each
      decoded record, leaving the loop at the first parse exception. */
  method LoadLines<T>(lines: seq<string>, decode: string -> LineResult<T>) returns (rows: seq<T>)
    ensures rows == Loaded(lines, decode)
  {
    rows := [];
    var i := 0;
    assert lines[i..] == lines;
    while i < |lines|
      invariant 0 <= i <= |lines|
      invariant rows + Loaded(lines[i..], decode) == Loaded(lines, decode)
    {
      LoadedStep(lines, i, decode);
      match decode(lines[i]) {
        case Skip =>
        case Row(x) =>
          rows := rows + [x];
        case Malformed =>
          return;
      }
      i := i + 1;
    }
  }

  /** A malformed first line: nothing is loaded. */
  lemma LoadedHeadMalformed<T>(lines: seq<string>, decode: string -> LineResult<T>)
    requires lines != [] && decode(lines[0]).Malformed?
    ensures Loaded(lines, decode) == []
  {
  }

  /** `list.stream().map(encode)`: one line per record, in list order. */
  function EncodeAll<T>(xs: seq<T>, encode: T -> string): (lines: seq<string>)
    ensures |lines| == |xs|
    ensures forall i :: 0 <= i < |xs| ==> lines[i] == encode(xs[i])
  {
    if xs == [] then [] else [encode(xs[0])] + EncodeAll(xs[1..], encode)
  }

  /** Encoding a list in two parts. */
  lemma EncodeAllAppend<T>(xs: seq<T>, ys: seq<T>, encode: T -> string)
    ensures EncodeAll(xs + ys, encode) == EncodeAll(xs, encode) + EncodeAll(ys, encode)
  {
    var l, r := EncodeAll(xs + ys, encode), EncodeAll(xs, encode) + EncodeAll(ys, encode);
    assert |l| == |r|;
    forall i | 0 <= i < |l| ensures l[i] == r[i] {
      if i < |xs| { assert (xs + ys)[i] == xs[i]; } else { assert (xs + ys)[i] == ys[i - |xs|]; }
    }
  }

  /** Encoding a list with one record picked out. */
  lemma EncodeAllAround<T>(xs: seq<T>, x: T, ys: seq<T>, encode: T -> string)
    ensures EncodeAll(xs + [x] + ys, encode) == EncodeAll(xs, encode) + [encode(x)] + EncodeAll(ys, encode)
  {
    EncodeAllAppend(xs + [x], ys, encode);
    EncodeAllAppend(xs, [x], encode);
  }

  /** When every record's line decodes to the record, saving and loading
      the list gives the list back, in order. */
  lemma {:induction false} LoadedEncoded<T>(xs: seq<T>, encode: T -> string, decode: string -> LineResult<T>)
    requires forall i :: 0 <= i < |xs| ==> decode(encode(xs[i])) == Row(xs[i])
    ensures Loaded(EncodeAll(xs, encode), decode) == xs
  {
    if xs != [] {
      assert decode(encode(xs[0])) == Row(xs[0]);
      LoadedEncoded(xs[1..], encode, decode);
      assert EncodeAll(xs, encode)[1..] == EncodeAll(xs[1..], encode);
    }
  }

  /** Every loaded record is one that some line decoded to. */
  lemma {:induction false} LoadedSatisfies<T>(lines: seq<string>, decode: string -> LineResult<T>, wanted: T -> bool)
    requires forall line :: decode(line).Row? ==> wanted(decode(line).value)
    ensures forall i :: 0 <= i < |Loaded(lines, decode)| ==> wanted(Loaded(lines, decode)[i])
  {
    if lines != [] {
      LoadedSatisfies(lines[1..], decode, wanted);
    }
  }

  const FieldSeparator: char := ','

  /** A text field that survives the format: no comma (there is no escaping)
      and nothing for `trim()` to remove at either end. */
  predicate CleanField(s: string) {
    FieldSeparator !in s && Trim(s) == s
  }

  /** A field of a split line, once trimmed, is clean. */
  lemma CleanFieldOfTrim(field: string)
    requires FieldSeparator !in field
    ensures CleanField(Trim(field))
  {
    TrimIdempotent(field);
    TrimKeepsAbsent(field, FieldSeparator);
  }

  /** A booking that is written and read back unchanged. */
  predicate StorableBooking(b: Booking) {
    CleanField(b.customer) && ValidDate(b.date)
  }

  /** `b.roomNumber + "," + b.customer + "," + b.date.format(DATE_FMT)`. */
  function EncodeBooking(b: Booking): string {
    Join([FormatInt(b.roomNumber as int), b.customer, FormatDate(b.date)], FieldSeparator)
  }

  /** The lines `saveBookings` writes. */
  function EncodeBookings(bookings: seq<Booking>): seq<string> {
    EncodeAll(bookings, EncodeBooking)
  }

  /** One line of `bookings.csv`, as the body of the loop of `loadBookings`. */
  function DecodeBookingLine(line: string): (r: LineResult<Booking>)
    ensures r.Row? ==> StorableBooking(r.value)
  {
    if IsBlank(line) then Skip
    else
      var p := Split(line, FieldSeparator);
      if |p| < 3 then Skip
      else match ParseInt(Trim(p[0]))
        case None => Malformed
        case Some(n) =>
          match ParseDate(Trim(p[2]))
            case None => Malformed
            case Some(d) =>
              CleanFieldOfTrim(p[1]);
              Row(Booking(n, Trim(p[1]), d))
  }

  /** `loadBookings` on the lines of an existing `bookings.csv`. */
  function LoadedBookings(lines: seq<string>): seq<Booking> {
    Loaded(lines, DecodeBookingLine)
  }

  lemma SolidFieldsOfFormats(n: int, d: Date)
    ensures FieldSeparator !in FormatInt(n) && NoTrimmable(FormatInt(n))
    ensures FieldSeparator !in FormatDate(d) && NoTrimmable(FormatDate(d))
  {
    FormatDateChars(d);
  }

  /** A line that holds a comma is not blank. */
  lemma CommaLineNotBlank(a: string, b: string)
    ensures !IsBlank(a + [FieldSeparator] + b)
  {
    BlankIffAllTrimmable(a + [FieldSeparator] + b);
    assert (a + [FieldSeparator] + b)[|a|] == FieldSeparator;
  }

  /** Writing one storable booking and reading the line back gives the
      booking. */
  lemma BookingLineRoundTrip(b: Booking)
    requires StorableBooking(b)
    ensures DecodeBookingLine(EncodeBooking(b)) == Row(b)
  {
    var n, d := FormatInt(b.roomNumber as int), FormatDate(b.date);
    assert ParseInt(Trim(n)) == Some(b.roomNumber) by {
      SolidFieldsOfFormats(b.roomNumber as int, b.date);
      TrimSolid(n);
      IntRoundTrip(b.roomNumber);
    }
    assert ParseDate(Trim(d)) == Some(b.date) by {
      SolidFieldsOfFormats(b.roomNumber as int, b.date);
      TrimSolid(d);
      ParseFormat(b.date);
    }
    var line := EncodeBooking(b);
    assert !IsBlank(line) && Split(line, FieldSeparator) == [n, b.customer, d] by {
      SolidFieldsOfFormats(b.roomNumber as int, b.date);
      ThreeFields(n, b.customer, d);
    }
    DecodeBookingFields(line, n, b.customer, d);
  }

  /** A line made of three comma-free fields is not blank and splits into
      exactly those fields. */
  lemma ThreeFields(a: string, b: string, c: string)
    requires FieldSeparator !in a && FieldSeparator !in b && FieldSeparator !in c
    ensures !IsBlank(Join([a, b, c], FieldSeparator))
    ensures Split(Join([a, b, c], FieldSeparator), FieldSeparator) == [a, b, c]
  {
    var fields := [a, b, c];
    SplitJoin(fields, FieldSeparator);
    CommaLineNotBlank(a, Join(fields[1..], FieldSeparator));
  }

  lemma DecodeBookingFields(line: string, a: string, b: string, c: string)
    requires !IsBlank(line) && Split(line, FieldSeparator) == [a, b, c]
    requires ParseInt(Trim(a)).Some? && ParseDate(Trim(c)).Some?
    ensures DecodeBookingLine(line) == Row(Booking(ParseInt(Trim(a)).value, Trim(b), ParseDate(Trim(c)).value))
  {
    var p := Split(line, FieldSeparator);
    assert p[0] == a && p[1] == b && p[2] == c;
    assert |p| == 3;
    var n := ParseInt(Trim(a)).value;
    var d := ParseDate(Trim(c)).value;
    assert ParseInt(Trim(p[0])) == Some(n);
    assert ParseDate(Trim(p[2])) == Some(d);
  }

  /** `saveBookings` followed by `loadBookings` gives back the list, in
      order, when every booking is storable and no customer holds a line
      break: both as lines and through the text of the file. */
  lemma BookingsRoundTrip(bookings: seq<Booking>)
    requires forall i :: 0 <= i < |bookings| ==> StorableBooking(bookings[i])
    requires forall i :: 0 <= i < |bookings| ==> OneLine(bookings[i].customer)
    ensures LoadedBookings(EncodeBookings(bookings)) == bookings
    ensures LoadedBookings(ReadAllLines(WriteLines(EncodeBookings(bookings)))) == bookings
  {
    BookingLinesRoundTrip(bookings);
    forall i | 0 <= i < |bookings| ensures OneLine(EncodeBookings(bookings)[i]) {
      BookingOneLine(bookings[i]);
    }
    ReadWrite(EncodeBookings(bookings));
  }

  /** A file holding one storable booking whose customer holds no line
      break reads back as that booking. */
  lemma BookingFileRoundTrip(b: Booking)
    requires StorableBooking(b) && OneLine(b.customer)
    ensures DecodeBookingLine(EncodeBooking(b)) == Row(b)
    ensures LoadedBookings(ReadAllLines(WriteLines([EncodeBooking(b)]))) == [b]
  {
    BookingLineRoundTrip(b);
    BookingOneLine(b);
    FileOfOneLine(EncodeBooking(b), DecodeBookingLine);
  }

  /** A file written from one line that holds no line break and decodes
      to a record loads as that record. */
  lemma FileOfOneLine<T>(line: string, decode: string -> LineResult<T>)
    requires OneLine(line) && decode(line).Row?
    ensures Loaded(ReadAllLines(WriteLines([line])), decode) == [decode(line).value]
  {
    ReadWrite([line]);
    assert [line][1..] == [];
  }

  /** Every storable booking's line decodes to it, so the list of lines
      loads back as the list. */
  lemma BookingLinesRoundTrip(bookings: seq<Booking>)
    requires forall i :: 0 <= i < |bookings| ==> StorableBooking(bookings[i])
    ensures LoadedBookings(EncodeBookings(bookings)) == bookings
  {
    forall i | 0 <= i < |bookings| ensures DecodeBookingLine(EncodeBooking(bookings[i])) == Row(bookings[i]) {
      BookingLineRoundTrip(bookings[i]);
    }
    LoadedEncoded(bookings, EncodeBooking, DecodeBookingLine);
  }

  /** The number and the date of a line never hold a line break. */
  lemma FormatsOneLine(n: int, d: Date)
    ensures OneLine(FormatInt(n)) && OneLine(FormatDate(d))
  {
    FormatDateChars(d);
    assert forall i :: 0 <= i < |FormatDate(d)| ==> !IsLineBreak(FormatDate(d)[i]);
    assert forall i :: 0 <= i < |FormatInt(n)| ==> !IsLineBreak(FormatInt(n)[i]);
  }

  /** A booking's line is one line of the file when its customer is. */
  lemma BookingOneLine(b: Booking)
    requires OneLine(b.customer)
    ensures OneLine(EncodeBooking(b))
  {
    FormatsOneLine(b.roomNumber as int, b.date);
    JoinShort(FormatInt(b.roomNumber as int), b.customer, FormatDate(b.date), FieldSeparator);
  }

  /** Whatever was loaded can be saved and loaded again without change:
      the file reaches a fixed point after one load. */
  lemma ReloadIsStable(lines: seq<string>)
    ensures LoadedBookings(EncodeBookings(LoadedBookings(lines))) == LoadedBookings(lines)
  {
    LoadedSatisfies(lines, DecodeBookingLine, StorableBooking);
    BookingLinesRoundTrip(LoadedBookings(lines));
  }

  /** A customer name holding a lone carriage return is written unchanged,
      and `readAllLines` cuts its line in two. Neither half has three
      fields, so both are skipped and the booking is lost. */
  lemma CarriageReturnInCustomerIsLost(n: Int32, a: string, b: string, d: Date)
    requires FieldSeparator !in a && FieldSeparator !in b
    requires OneLine(a) && OneLine(b)
    ensures LoadedBookings(ReadAllLines(WriteLines([EncodeBooking(Booking(n, a + [CarriageReturn] + b, d))]))) == []
  {
    var num, date := FormatInt(n as int), FormatDate(d);
    var first, second := Join([num, a], FieldSeparator), Join([b, date], FieldSeparator);
    var line := EncodeBooking(Booking(n, a + [CarriageReturn] + b, d));
    assert ReadAllLines(WriteLines([line])) == [first, second] by {
      assert line == Join([num, a + [CarriageReturn] + b, date], FieldSeparator);
      FormatsOneLine(n as int, d);
      MiddleCarriageReturnSplits(num, a, b, date);
    }
    assert DecodeBookingLine(first).Skip? && DecodeBookingLine(second).Skip? by {
      SolidFieldsOfFormats(n as int, d);
      TwoFieldsSkipped(num, a);
      TwoFieldsSkipped(b, date);
    }
    LoadedTwoSkipped(first, second, DecodeBookingLine);
  }

  /** Three one-line fields, the middle one holding a lone "\r", are
      written as one line and read back as two. */
  lemma MiddleCarriageReturnSplits(x: string, a: string, b: string, y: string)
    requires OneLine(x) && OneLine(a) && OneLine(b) && OneLine(y)
    ensures ReadAllLines(WriteLines([Join([x, a + [CarriageReturn] + b, y], FieldSeparator)]))
            == [Join([x, a], FieldSeparator), Join([b, y], FieldSeparator)]
  {
    var first, second := Join([x, a], FieldSeparator), Join([b, y], FieldSeparator);
    assert Join([x, a + [CarriageReturn] + b, y], FieldSeparator) == first + [CarriageReturn] + second by {
      JoinShort(x, a + [CarriageReturn] + b, y, FieldSeparator);
      JoinShort(x, a, y, FieldSeparator);
      JoinShort(b, y, y, FieldSeparator);
    }
    assert OneLine(first) && OneLine(second) && second != [] by {
      JoinShort(x, a, y, FieldSeparator);
      JoinShort(b, y, y, FieldSeparator);
    }
    CarriageReturnSplits(first, second);
  }

  lemma LoadedTwoSkipped<T>(x: string, y: string, decode: string -> LineResult<T>)
    requires decode(x).Skip? && decode(y).Skip?
    ensures Loaded([x, y], decode) == []
  {
    assert [x, y][1..] == [y];
  }

  /** A booking line of two comma-free fields is skipped. */
  lemma TwoFieldsSkipped(x: string, y: string)
    requires FieldSeparator !in x && FieldSeparator !in y
    ensures DecodeBookingLine(Join([x, y], FieldSeparator)).Skip?
  {
    SplitJoin([x, y], FieldSeparator);
    BookingLineSkipped(Join([x, y], FieldSeparator));
  }

  /** A line whose number or date field does not parse is malformed. */
  lemma DecodeBookingMalformed(line: string)
    requires !IsBlank(line) && |Split(line, FieldSeparator)| >= 3
    requires ParseInt(Trim(Split(line, FieldSeparator)[0])).None?
          || ParseDate(Trim(Split(line, FieldSeparator)[2])).None?
    ensures DecodeBookingLine(line).Malformed?
  {
  }

  /** Blank lines and lines with fewer than three fields are skipped, and
      only those. */
  lemma BookingLineSkipped(line: string)
    ensures DecodeBookingLine(line).Skip? <==> IsBlank(line) || |Split(line, FieldSeparator)| < 3
  {
  }

  /** A comma in a customer name shifts the fields: when the text after the
      comma is not a date, the load stops at that booking, and it and every
      later booking are lost. */
  lemma CommaInCustomerCutsLoad(before: seq<Booking>, n: Int32, a: string, b: string, d: Date, after: seq<Booking>)
    requires forall i :: 0 <= i < |before| ==> StorableBooking(before[i])
    requires FieldSeparator !in a && FieldSeparator !in b
    requires ParseDate(Trim(b)).None?
    ensures LoadedBookings(EncodeBookings(before + [Booking(n, a + [FieldSeparator] + b, d)] + after)) == before
  {
    var bad := Booking(n, a + [FieldSeparator] + b, d);
    var lines := EncodeBookings(before + [bad] + after);
    EncodeAllAround(before, bad, after, EncodeBooking);
    assert LoadedBookings(lines) == LoadedBookings(EncodeBookings(before)) by {
      CommaInCustomerIsMalformed(n, a, b, d);
      LoadedStopsAtMalformed(EncodeBookings(before), EncodeBooking(bad), EncodeBookings(after), DecodeBookingLine);
    }
    BookingLinesRoundTrip(before);
  }

  /** When the part of a customer name after its comma is not a date, the
      booking's line is a parse error. */
  lemma CommaInCustomerIsMalformed(n: Int32, a: string, b: string, d: Date)
    requires FieldSeparator !in a && FieldSeparator !in b
    requires ParseDate(Trim(b)).None?
    ensures DecodeBookingLine(EncodeBooking(Booking(n, a + [FieldSeparator] + b, d))).Malformed?
  {
    var line := EncodeBooking(Booking(n, a + [FieldSeparator] + b, d));
    assert !IsBlank(line) && Split(line, FieldSeparator)[2] == b by {
      CommaShiftsFields(n, a, b, d);
    }
    DecodeBookingMalformed(line);
  }

  /** When the part of a customer name after its comma reads as a date, the
      booking's line loads as a booking for the customer `a` on that date:
      the fourth field, the real date, is never looked at. */
  lemma CommaBeforeDateRebooks(n: Int32, a: string, b: string, d: Date)
    requires FieldSeparator !in a && FieldSeparator !in b
    requires ParseDate(Trim(b)).Some?
    ensures DecodeBookingLine(EncodeBooking(Booking(n, a + [FieldSeparator] + b, d)))
            == Row(Booking(n, Trim(a), ParseDate(Trim(b)).value))
  {
    CommaShiftsFields(n, a, b, d);
    NumberFieldParses(n);
    DecodeFourFields(EncodeBooking(Booking(n, a + [FieldSeparator] + b, d)), FormatInt(n as int), a, b, FormatDate(d));
  }

  /** A booking line of four fields decodes from the first three. */
  lemma DecodeFourFields(line: string, x: string, a: string, b: string, y: string)
    requires !IsBlank(line) && Split(line, FieldSeparator) == [x, a, b, y]
    requires ParseInt(Trim(x)).Some? && ParseDate(Trim(b)).Some?
    ensures DecodeBookingLine(line) == Row(Booking(ParseInt(Trim(x)).value, Trim(a), ParseDate(Trim(b)).value))
  {
    DecodeBookingLeading(line);
  }

  /** The number field of a saved line parses back to the number. */
  lemma NumberFieldParses(n: Int32)
    ensures ParseInt(Trim(FormatInt(n as int))) == Some(n)
  {
    SolidFieldsOfFormats(n as int, Date(1, 1, 1));
    TrimSolid(FormatInt(n as int));
    IntRoundTrip(n);
  }

  /** A line splitting into at least three fields whose first and third
      parse decodes from those three; any further field is ignored. */
  lemma DecodeBookingLeading(line: string)
    requires !IsBlank(line) && |Split(line, FieldSeparator)| >= 3
    requires ParseInt(Trim(Split(line, FieldSeparator)[0])).Some?
    requires ParseDate(Trim(Split(line, FieldSeparator)[2])).Some?
    ensures var p := Split(line, FieldSeparator);
      DecodeBookingLine(line)
      == Row(Booking(ParseInt(Trim(p[0])).value, Trim(p[1]), ParseDate(Trim(p[2])).value))
  {
  }

  /** A customer name `a,b` is written unquoted, so the line reads back as
      four fields: the room, `a`, `b` and the date. */
  lemma CommaShiftsFields(n: Int32, a: string, b: string, d: Date)
    requires FieldSeparator !in a && FieldSeparator !in b
    ensures var line := EncodeBooking(Booking(n, a + [FieldSeparator] + b, d));
      !IsBlank(line) && Split(line, FieldSeparator) == [FormatInt(n as int), a, b, FormatDate(d)]
  {
    SolidFieldsOfFormats(n as int, d);
    MiddleCommaSplits(FormatInt(n as int), a, b, FormatDate(d));
  }

  /** Three fields, the middle one holding a comma, read back as four. */
  lemma MiddleCommaSplits(x: string, a: string, b: string, y: string)
    requires FieldSeparator !in x && FieldSeparator !in a && FieldSeparator !in b && FieldSeparator !in y
    ensures var line := Join([x, a + [FieldSeparator] + b, y], FieldSeparator);
      !IsBlank(line) && Split(line, FieldSeparator) == [x, a, b, y]
  {
    var line := Join([x, a + [FieldSeparator] + b, y], FieldSeparator);
    var parts := [x, a, b, y];
    assert line == Join(parts, FieldSeparator) by {
      JoinSplitsMiddle(x, a, b, y, FieldSeparator);
    }
    assert Split(line, FieldSeparator) == parts by {
      assert forall i :: 0 <= i < |parts| ==> FieldSeparator !in parts[i];
      SplitJoin(parts, FieldSeparator);
    }
    assert !IsBlank(line) by {
      assert parts[1..] == [a, b, y];
      assert line == x + [FieldSeparator] + Join([a, b, y], FieldSeparator);
      CommaLineNotBlank(x, Join([a, b, y], FieldSeparator));
    }
  }

  /** The first line of the CSV export. */
  const ExportHeader: string := "room,customer,date"

  /** The lines of the CSV export: the header, then one line per booking in
      list order, in the same format as `bookings.csv`. */
  function ExportLines(bookings: seq<Booking>): (lines: seq<string>)
    ensures |lines| == |bookings| + 1 && lines[0] == ExportHeader
    ensures forall i :: 0 <= i < |bookings| ==> lines[i + 1] == EncodeBooking(bookings[i])
  {
    var body := EncodeBookings(bookings);
    var lines := [ExportHeader] + body;
    assert forall i :: 0 <= i < |body| ==> lines[i + 1] == body[i];
    lines
  }

  /** `exportBookingsCsvAction`: the header, then one line per booking. */
  method ExportCsv(bookings: seq<Booking>) returns (lines: seq<string>)
    ensures lines == ExportLines(bookings)
  {
    var body := MapLines(bookings, EncodeBooking);
    assert body == EncodeBookings(bookings);
    lines := [ExportHeader] + body;
  }

  /** The export is not a bookings file: its header reads as a malformed
      booking (`room` is not a number), so loading it yields nothing. */
  lemma ExportDoesNotReload(bookings: seq<Booking>)
    ensures LoadedBookings(ExportLines(bookings)) == []
  {
    var lines := ExportLines(bookings);
    assert lines[0] == ExportHeader;
    HeaderIsMalformed();
    LoadedHeadMalformed(lines, DecodeBookingLine);
  }

  lemma HeaderIsMalformed()
    ensures DecodeBookingLine(ExportHeader).Malformed?
  {
    HeaderFields();
    HeaderRoomIsNotANumber();
    DecodeBookingMalformed(ExportHeader);
  }

  lemma HeaderFields()
    ensures !IsBlank(ExportHeader) && Split(ExportHeader, FieldSeparator) == ["room", "customer", "date"]
  {
    assert ExportHeader == Join(["room", "customer", "date"], FieldSeparator);
    ThreeFields("room", "customer", "date");
  }

  lemma HeaderRoomIsNotANumber()
    ensures ParseInt(Trim("room")).None?
  {
    assert NoTrimmable("room");
    TrimSolid("room");
    ParseIntRejectsLetters("room");
  }

  /** `number + "," + type + "," + price`; `showPrice` is `Double.toString`,
      which this model does not define. */
  function EncodeRoom(r: Room, showPrice: real -> string): string {
    Join([FormatInt(r.number as int), r.roomType, showPrice(r.price)], FieldSeparator)
  }

  function RoomEncoder(showPrice: real -> string): Room -> string {
    r => EncodeRoom(r, showPrice)
  }

  /** The lines `saveRooms` writes. */
  function EncodeRooms(rooms: seq<Room>, showPrice: real -> string): seq<string> {
    EncodeAll(rooms, RoomEncoder(showPrice))
  }

  /** One line of `rooms.csv`, as the body of the loop of `loadRooms`;
      `parsePrice` is `Double.parseDouble`, `None` for its exception. */
  function DecodeRoomLine(line: string, parsePrice: string -> Option<real>): (r: LineResult<Room>)
    ensures r.Row? ==> CleanField(r.value.roomType)
  {
    if IsBlank(line) then Skip
    else
      var p := Split(line, FieldSeparator);
      if |p| < 3 then Skip
      else match ParseInt(Trim(p[0]))
        case None => Malformed
        case Some(n) =>
          match parsePrice(Trim(p[2]))
            case None => Malformed
            case Some(price) =>
              CleanFieldOfTrim(p[1]);
              Row(Room(n, Trim(p[1]), price))
  }

  /** Blank lines and lines with fewer than three fields are skipped, and
      only those. */
  lemma RoomLineSkipped(line: string, parsePrice: string -> Option<real>)
    ensures DecodeRoomLine(line, parsePrice).Skip? <==> IsBlank(line) || |Split(line, FieldSeparator)| < 3
  {
  }

  function RoomDecoder(parsePrice: string -> Option<real>): string -> LineResult<Room> {
    line => DecodeRoomLine(line, parsePrice)
  }

  /** `loadRooms` on the lines of an existing `rooms.csv`. */
  function LoadedRooms(lines: seq<string>, parsePrice: string -> Option<real>): seq<Room> {
    Loaded(lines, RoomDecoder(parsePrice))
  }

  /** What the rooms round trip needs of the price conversions, for one
      price: its text is a clean field that parses back to that price (as
      `Double.parseDouble(Double.toString(d)) == d` for every double). */
  ghost predicate PriceTextRoundTrips(price: real, showPrice: real -> string, parsePrice: string -> Option<real>) {
    CleanField(showPrice(price)) && parsePrice(showPrice(price)) == Some(price)
  }

  lemma RoomLineRoundTrip(r: Room, showPrice: real -> string, parsePrice: string -> Option<real>)
    requires PriceTextRoundTrips(r.price, showPrice, parsePrice)
    requires CleanField(r.roomType)
    ensures DecodeRoomLine(EncodeRoom(r, showPrice), parsePrice) == Row(r)
  {
    var n, pr := FormatInt(r.number as int), showPrice(r.price);
    assert CleanField(pr) && parsePrice(pr) == Some(r.price);
    assert ParseInt(Trim(n)) == Some(r.number) by {
      SolidFieldsOfFormats(r.number as int, Date(1, 1, 1));
      TrimSolid(n);
      IntRoundTrip(r.number);
    }
    var line := EncodeRoom(r, showPrice);
    assert !IsBlank(line) && Split(line, FieldSeparator) == [n, r.roomType, pr] by {
      SolidFieldsOfFormats(r.number as int, Date(1, 1, 1));
      ThreeFields(n, r.roomType, pr);
    }
    DecodeRoomFields(line, parsePrice, n, r.roomType, pr);
  }

  lemma DecodeRoomFields(line: string, parsePrice: string -> Option<real>, a: string, b: string, c: string)
    requires !IsBlank(line) && Split(line, FieldSeparator) == [a, b, c]
    requires ParseInt(Trim(a)).Some? && parsePrice(Trim(c)).Some?
    ensures DecodeRoomLine(line, parsePrice) == Row(Room(ParseInt(Trim(a)).value, Trim(b), parsePrice(Trim(c)).value))
  {
    var p := Split(line, FieldSeparator);
    assert p[0] == a && p[1] == b && p[2] == c;
    assert |p| == 3;
    var n := ParseInt(Trim(a)).value;
    var pr := parsePrice(Trim(c)).value;
    assert ParseInt(Trim(p[0])) == Some(n);
    assert parsePrice(Trim(p[2])) == Some(pr);
  }

  /** `saveRooms` followed by `loadRooms` gives back the list, in order, when
      no room type holds a comma, a line break or surrounding white space
      and the text of every price in the list is one line that parses back
      to that price: both as lines and through the text of the file. */
  lemma RoomsRoundTrip(rooms: seq<Room>, showPrice: real -> string, parsePrice: string -> Option<real>)
    requires forall i :: 0 <= i < |rooms| ==> PriceTextRoundTrips(rooms[i].price, showPrice, parsePrice)
    requires forall i :: 0 <= i < |rooms| ==> CleanField(rooms[i].roomType)
    requires forall i :: 0 <= i < |rooms| ==> OneLine(rooms[i].roomType) && OneLine(showPrice(rooms[i].price))
    ensures LoadedRooms(EncodeRooms(rooms, showPrice), parsePrice) == rooms
    ensures LoadedRooms(ReadAllLines(WriteLines(EncodeRooms(rooms, showPrice))), parsePrice) == rooms
  {
    forall i | 0 <= i < |rooms|
      ensures RoomDecoder(parsePrice)(RoomEncoder(showPrice)(rooms[i])) == Row(rooms[i])
    {
      RoomLineRoundTrip(rooms[i], showPrice, parsePrice);
    }
    LoadedEncoded(rooms, RoomEncoder(showPrice), RoomDecoder(parsePrice));
    forall i | 0 <= i < |rooms| ensures OneLine(EncodeRooms(rooms, showPrice)[i]) {
      RoomOneLine(rooms[i], showPrice);
    }
    ReadWrite(EncodeRooms(rooms, showPrice));
  }

  /** A room's line is one line of the file when its type and its price
      text are. */
  lemma RoomOneLine(r: Room, showPrice: real -> string)
    requires OneLine(r.roomType) && OneLine(showPrice(r.price))
    ensures OneLine(EncodeRoom(r, showPrice))
  {
    FormatsOneLine(r.number as int, Date(1, 1, 1));
    JoinShort(FormatInt(r.number as int), r.roomType, showPrice(r.price), FieldSeparator);
  }
}
