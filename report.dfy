/** The text of the PDF bookings report: a title, a header row and one
    fixed-width row per booking, `String.format("%-10s %-25s %-12s", ...)`,
    with the customer name cut to 25 characters by `truncate`. */
module Report {
  import opened Numbers
  import opened Dates
  import opened Records
  import opened Sequences

  const Ellipsis: string := "..."

  /** `truncate(s, n)`: `s` when it fits, otherwise its first `n - 3`
      characters and an ellipsis. Java's `substring(0, n - 3)` throws when a
      long `s` meets `n < 3`, so the model asks for `n >= 3` in that case. */
  function Truncate(s: string, n: nat): (r: string)
    requires |s| <= n || n >= 3
    ensures |s| <= n ==> r == s
    ensures |s| > n ==> |r| == n && r[..n - 3] == s[..n - 3] && r[n - 3..] == Ellipsis
  {
    if |s| <= n then s else s[..n - 3] + Ellipsis
  }

  /** The result never exceeds the width, and it is a prefix of `s` or a
      prefix of `s` followed by the ellipsis. */
  lemma TruncateFits(s: string, n: nat)
    requires |s| <= n || n >= 3
    ensures |Truncate(s, n)| <= n
    ensures |Truncate(s, n)| == if |s| <= n then |s| else n
    ensures Truncate(s, n) == s || Truncate(s, n) == s[..n - 3] + Ellipsis
  {
  }

  /** Truncating twice is truncating once. */
  lemma TruncateIdempotent(s: string, n: nat)
    requires |s| <= n || n >= 3
    ensures Truncate(Truncate(s, n), n) == Truncate(s, n)
  {
  }

  function Spaces(k: nat): (r: string)
    ensures |r| == k && forall i :: 0 <= i < k ==> r[i] == ' '
  {
    if k == 0 then [] else Spaces(k - 1) + [' ']
  }

  /** `%-Ns`: left-justified in a field of `w` characters, padded with
      spaces; a longer text is kept whole. */
  function PadRight(s: string, w: nat): (r: string)
    ensures |r| == if |s| >= w then |s| else w
    ensures r[..|s|] == s
    ensures forall i :: |s| <= i < |r| ==> r[i] == ' '
  {
    if |s| >= w then s else s + Spaces(w - |s|)
  }

  const RoomWidth: nat := 10
  const CustomerWidth: nat := 25
  const DateWidth: nat := 12

  /** One line of the table: `%-10s %-25s %-12s`. */
  function FormatRow(room: string, customer: string, date: string): string {
    PadRight(room, RoomWidth) + " " + PadRight(customer, CustomerWidth) + " " + PadRight(date, DateWidth)
  }

  /** When every text fits its column, the row is 49 characters wide and
      each text starts at its column's fixed offset, followed by spaces up
      to the next column. */
  lemma RowColumns(room: string, customer: string, date: string)
    requires |room| <= RoomWidth && |customer| <= CustomerWidth && |date| <= DateWidth
    ensures var r := FormatRow(room, customer, date);
      |r| == 49
      && r[..|room|] == room
      && r[11..11 + |customer|] == customer
      && r[37..37 + |date|] == date
      && (forall i :: |room| <= i < 11 ==> r[i] == ' ')
      && (forall i :: 11 + |customer| <= i < 37 ==> r[i] == ' ')
      && (forall i :: 37 + |date| <= i < 49 ==> r[i] == ' ')
  {
    var a, b, c := PadRight(room, RoomWidth), PadRight(customer, CustomerWidth), PadRight(date, DateWidth);
    var r := FormatRow(room, customer, date);
    assert r == a + " " + b + " " + c;
    assert r[..10] == a && r[11..36] == b && r[37..] == c;
    assert r[11..11 + |customer|] == b[..|customer|];
    assert r[37..37 + |date|] == c[..|date|];
    assert r[10] == ' ' && r[36] == ' ';
    forall i | |room| <= i < 11 ensures r[i] == ' ' {
      if i < 10 { assert r[i] == a[i]; }
    }
    forall i | 11 + |customer| <= i < 37 ensures r[i] == ' ' {
      if i < 36 { assert r[i] == b[i - 11]; }
    }
    forall i | 37 + |date| <= i < 49 ensures r[i] == ' ' {
      assert r[i] == c[i - 37];
    }
  }

  const Title: string := "Bookings Report"

  function HeaderRow(): string {
    FormatRow("Room", "Customer", "Date")
  }

  /** The report line of one booking. */
  function ReportRow(b: Booking): string {
    FormatRow(FormatInt(b.roomNumber as int), Truncate(b.customer, CustomerWidth), FormatDate(b.date))
  }

  /** A room number from -999999999 up prints in at most ten characters;
      only the ten-digit negative numbers overflow the first column. */
  lemma RoomNumberFits(n: Int32)
    requires n >= -999_999_999
    ensures |FormatInt(n as int)| <= RoomWidth
  {
    if n < 0 {
      DigitsLength(-(n as int), 9);
    } else {
      DigitsLength(n as int, 10);
    }
  }

  /** A stored booking's row: 49 characters, the room number first, the
      customer (cut to 25) at offset 11 and the date text at offset 37. */
  lemma ReportRowLayout(b: Booking)
    requires b.roomNumber >= -999_999_999 && ValidDate(b.date)
    ensures var r := ReportRow(b);
      var customer := Truncate(b.customer, CustomerWidth);
      |r| == 49
      && r[..|FormatInt(b.roomNumber as int)|] == FormatInt(b.roomNumber as int)
      && r[11..11 + |customer|] == customer
      && r[37..47] == FormatDate(b.date)
  {
    var room, customer, date := FormatInt(b.roomNumber as int), Truncate(b.customer, CustomerWidth), FormatDate(b.date);
    assert |room| <= RoomWidth by { RoomNumberFits(b.roomNumber); }
    assert |customer| <= CustomerWidth by { TruncateFits(b.customer, CustomerWidth); }
    assert |date| == 10 by { FieldWidths(b.date); }
    RowColumns(room, customer, date);
  }

  /** The text lines of the whole report, bookings in list order. */
  function ReportText(bookings: seq<Booking>): (lines: seq<string>)
    ensures |lines| == |bookings| + 2
    ensures lines[0] == Title && lines[1] == HeaderRow()
    ensures forall i :: 0 <= i < |bookings| ==> lines[i + 2] == ReportRow(bookings[i])
  {
    [Title, HeaderRow()] + RowsOf(bookings)
  }

  function RowsOf(bookings: seq<Booking>): (rows: seq<string>)
    ensures |rows| == |bookings|
    ensures forall i :: 0 <= i < |bookings| ==> rows[i] == ReportRow(bookings[i])
  {
    if bookings == [] then [] else [ReportRow(bookings[0])] + RowsOf(bookings[1..])
  }

  /** The text of `createPdfReport`: title, header row, then a row per
      booking in list order. */
  method ReportLines(bookings: seq<Booking>) returns (lines: seq<string>)
    ensures lines == ReportText(bookings)
  {
    var rows := MapLines(bookings, ReportRow);
    assert rows == RowsOf(bookings);
    lines := [Title, HeaderRow()] + rows;
  }
}
