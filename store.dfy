/**
 * The reservation system's state: the three global linked lists (bookings
 * `head`, flights `flightHead`, cancellation requests `headCancelRequests`)
 * and the files the workflows rewrite, with the workflows that change them.
 *
 * Each list is the sequence of its records from the head. Files are values:
 * `details.csv` as the rows written to it, `flights.csv` as the flights
 * written to it, `cancellation_requests.csv` as its text, and the seat
 * files as a map from flight ID to seat file.
 */
module Store {
  import opened Records
  import Lists
  import SeatMap
  import CancelFile
  import Text

  /** A line of `details.csv`. */
  datatype DetailsRow =
      /** `refNo,name,flightID,date,payment,cancelRequested`, as the full rewrite writes it. */
    | SixFields(booking: Booking)
      /**
       * The line a confirmed booking appends: the same fields with the
       * booking's seat number between date and payment. The workflow never
       * assigns that seat number, so the model does not carry it.
       */
    | SevenFields(booking: Booking)

  /** How the booking workflow ends. */
  datatype BookOutcome =
    | FlightNotFound
    | SeatFileMissing
    | SeatRefused
      /** Seat taken and booking listed, but "PAY" was not typed: nothing appended to the file. */
    | PaymentDeclined(refNo: string)
    | Booked(refNo: string)

  /** The full rewrite of `details.csv` from the booking list, in list order. */
  function SixFieldRows(bookings: seq<Booking>): seq<DetailsRow>
  {
    seq(|bookings|, i requires 0 <= i < |bookings| => SixFields(bookings[i]))
  }

  /** The booking the workflow lists for a confirmed or declined payment. */
  function NewBooking(refNum: int, name: string, flightID: string, flight: Flight): (b: Booking)
    requires 0 <= refNum < 10000
  {
    Booking(Text.RefNo(refNum), name, flightID, flight.date, flight.price, 0)
  }

  function SetCancelFlag(b: Booking, flag: int): Booking
  {
    b.(cancelRequested := flag)
  }

  /**
   * Seat files the booking workflow can read into its 200-entry grid and
   * display: every line names a seat 1..200, and there are at most 200
   * lines, since the display loop reads one grid entry per line.
   */
  predicate SeatFileReadable(file: SeatMap.SeatFile)
  {
    SeatMap.NumbersInRange(file.seats) && |file.seats| <= SeatMap.Capacity
  }

  class Reservations {
    var bookings: seq<Booking>
    var flights: seq<Flight>
    var requests: seq<CancelRequest>
    var details: seq<DetailsRow>
    var flightFile: seq<Flight>
    var cancelText: string
    var seatFiles: map<string, SeatMap.SeatFile>

    /** Every seat file on disk is one the booking workflow reads and displays within its grid. */
    ghost predicate Valid()
      reads this
    {
      forall id :: id in seatFiles ==> SeatFileReadable(seatFiles[id])
    }

    /** Program start: empty lists over the files already on disk. */
    constructor (details: seq<DetailsRow>, flightFile: seq<Flight>, cancelText: string,
                 seatFiles: map<string, SeatMap.SeatFile>)
      requires forall id :: id in seatFiles ==> SeatFileReadable(seatFiles[id])
      ensures Valid()
      ensures bookings == [] && flights == [] && requests == []
      ensures this.details == details && this.flightFile == flightFile
      ensures this.cancelText == cancelText && this.seatFiles == seatFiles
    {
      bookings, flights, requests := [], [], [];
      this.details, this.flightFile := details, flightFile;
      this.cancelText, this.seatFiles := cancelText, seatFiles;
    }

    /** `findFlight`: the first flight in list order with the ID, or none. */
    method FindFlight(flightID: string) returns (r: Option<Flight>)
      ensures r == Lists.Find(flights, FlightKey, flightID)
      ensures r.None? <==> forall i :: 0 <= i < |flights| ==> flights[i].flightID != flightID
      ensures r.Some? ==> r.value.flightID == flightID && exists i ::
        0 <= i < |flights| && flights[i] == r.value && forall j :: 0 <= j < i ==> flights[j].flightID != flightID
    {
      var i := 0;
      while i < |flights|
        invariant 0 <= i <= |flights|
        invariant forall j :: 0 <= j < i ==> flights[j].flightID != flightID
      {
        if flights[i].flightID == flightID {
          Lists.FirstIndexAt(flights, FlightKey, flightID, i);
          return Some(flights[i]);
        }
        i := i + 1;
      }
      Lists.FirstIndexAt(flights, FlightKey, flightID, i);
      return None;
    }

    /**
     * `loadDataFromCSV`: every `fscanf` call that fills all six fields
     * pushes its booking on the head of the list, so the list starts with
     * those bookings in reverse read order; a failed call pushes nothing.
     * Each entry of `lines` is the outcome of one call.
     */
    method LoadBookings(lines: seq<Option<Booking>>)
      modifies this
      ensures bookings == Lists.Reverse(Lists.Valid(lines)) + old(bookings)
      ensures flights == old(flights) && requests == old(requests) && details == old(details)
      ensures flightFile == old(flightFile) && cancelText == old(cancelText) && seatFiles == old(seatFiles)
    {
      var i := 0;
      while i < |lines|
        invariant 0 <= i <= |lines|
        invariant bookings == Lists.Reverse(Lists.Valid(lines[..i])) + old(bookings)
        invariant flights == old(flights) && requests == old(requests) && details == old(details)
        invariant flightFile == old(flightFile) && cancelText == old(cancelText) && seatFiles == old(seatFiles)
      {
        assert lines[..i + 1] == lines[..i] + [lines[i]];
        Lists.ValidAppend(lines[..i], [lines[i]]);
        assert Lists.Valid([lines[i]]) == if lines[i].Some? then [lines[i].value] else [];
        if lines[i].Some? {
          Lists.ReversePush(Lists.Valid(lines[..i]), lines[i].value);
          bookings := [lines[i].value] + bookings;
        } else {
          assert Lists.Valid(lines[..i]) + [] == Lists.Valid(lines[..i]);
        }
        i := i + 1;
      }
      assert lines[..i] == lines;
    }

    /**
     * `loadFlightsFromFile`: walks to the tail of the flight list and appends
     * the flight of each `fscanf` call there, in read order, stopping at the
     * first call that does not fill all six fields.
     */
    method LoadFlights(lines: seq<Option<Flight>>)
      modifies this
      ensures flights == old(flights) + Lists.ParsedPrefix(lines)
      ensures bookings == old(bookings) && requests == old(requests) && details == old(details)
      ensures flightFile == old(flightFile) && cancelText == old(cancelText) && seatFiles == old(seatFiles)
    {
      var i := 0;
      while i < |lines| && lines[i].Some?
        invariant 0 <= i <= |lines|
        invariant forall j :: 0 <= j < i ==> lines[j].Some?
        invariant flights == old(flights) + Lists.Valid(lines[..i])
        invariant bookings == old(bookings) && requests == old(requests) && details == old(details)
        invariant flightFile == old(flightFile) && cancelText == old(cancelText) && seatFiles == old(seatFiles)
      {
        assert lines[..i + 1] == lines[..i] + [lines[i]];
        Lists.ValidAppend(lines[..i], [lines[i]]);
        assert Lists.Valid([lines[i]]) == [lines[i].value];
        flights := flights + [lines[i].value];
        i := i + 1;
      }
      Lists.ParsedPrefixStopsAtFirstMalformed(lines, i);
    }

    /**
     * `loadCancelRequestsFromFile`: appends parsed requests in read order up
     * to the first `fscanf` call that does not fill all five fields, but
     * starts from an empty tail,
     * so the first parsed request becomes the new head and whatever the list
     * held before is dropped; with no parsed request the list is unchanged.
     */
    method LoadCancelRequests(lines: seq<Option<CancelRequest>>)
      modifies this
      ensures requests == if Lists.ParsedPrefix(lines) == [] then old(requests) else Lists.ParsedPrefix(lines)
      ensures bookings == old(bookings) && flights == old(flights) && details == old(details)
      ensures flightFile == old(flightFile) && cancelText == old(cancelText) && seatFiles == old(seatFiles)
    {
      var loaded: seq<CancelRequest> := [];
      var i := 0;
      while i < |lines| && lines[i].Some?
        invariant 0 <= i <= |lines|
        invariant forall j :: 0 <= j < i ==> lines[j].Some?
        invariant loaded == Lists.Valid(lines[..i])
        invariant requests == if loaded == [] then old(requests) else loaded
        invariant bookings == old(bookings) && flights == old(flights) && details == old(details)
        invariant flightFile == old(flightFile) && cancelText == old(cancelText) && seatFiles == old(seatFiles)
      {
        assert lines[..i + 1] == lines[..i] + [lines[i]];
        Lists.ValidAppend(lines[..i], [lines[i]]);
        assert Lists.Valid([lines[i]]) == [lines[i].value];
        if loaded == [] {
          requests := [lines[i].value];
        } else {
          requests := requests + [lines[i].value];
        }
        loaded := loaded + [lines[i].value];
        i := i + 1;
      }
      Lists.ParsedPrefixStopsAtFirstMalformed(lines, i);
    }

    /**
     * `addFlight`: writes the flight's seat file (200 available seats), makes
     * the flight the head of the list and rewrites `flights.csv`.
     */
    method AddFlight(f: Flight)
      requires Valid()
      modifies this
      ensures Valid()
      ensures seatFiles == old(seatFiles)[f.flightID := SeatMap.SeatFile(SeatMap.Header, SeatMap.FreshSeats(SeatMap.Capacity))]
      ensures flights == [f] + old(flights) && flightFile == flights
      ensures Lists.Find(flights, FlightKey, f.flightID) == Some(f)
      ensures bookings == old(bookings) && requests == old(requests)
      ensures details == old(details) && cancelText == old(cancelText)
    {
      var file := SeatMap.CreateSeatFile();
      seatFiles := seatFiles[f.flightID := file];
      flights := [f] + flights;
      flightFile := flights;
    }

    /**
     * `removeFlight`: unlinks the first flight with the ID and rewrites
     * `flights.csv`; with no such flight nothing changes. The seat file and
     * the bookings of the flight stay.
     */
    method RemoveFlight(flightID: string) returns (removed: bool)
      requires Valid()
      modifies this
      ensures Valid()
      ensures removed <==> exists i :: 0 <= i < |old(flights)| && old(flights)[i].flightID == flightID
      ensures flights == Lists.RemoveFirst(old(flights), FlightKey, flightID)
      ensures flightFile == if removed then flights else old(flightFile)
      ensures bookings == old(bookings) && requests == old(requests) && seatFiles == old(seatFiles)
      ensures details == old(details) && cancelText == old(cancelText)
    {
      var i := 0;
      while i < |flights|
        invariant 0 <= i <= |flights|
        invariant forall j :: 0 <= j < i ==> flights[j].flightID != flightID
      {
        if flights[i].flightID == flightID {
          Lists.FirstIndexAt(flights, FlightKey, flightID, i);
          flights := flights[..i] + flights[i + 1..];
          flightFile := flights;
          return true;
        }
        i := i + 1;
      }
      Lists.FirstIndexAt(flights, FlightKey, flightID, i);
      return false;
    }

    /**
     * The seat and booking steps of `bookFlight`. The flight must be listed
     * and have a seat file; the seat must pass the grid check. Then the seat
     * file is rewritten with the seat booked and the new booking is pushed on
     * the booking list, whether or not the payment is confirmed; only a
     * confirmed payment appends the booking to `details.csv`.
     */
    method BookFlight(flightID: string, seat: int, name: string, refNum: int, confirmed: bool)
      returns (outcome: BookOutcome)
      requires Valid()
      requires 0 <= refNum < 10000
      modifies this
      ensures Valid()
      ensures requests == old(requests) && flights == old(flights)
      ensures flightFile == old(flightFile) && cancelText == old(cancelText)
      ensures outcome == FlightNotFound <==> Lists.Find(flights, FlightKey, flightID).None?
      ensures outcome == SeatFileMissing <==>
        Lists.Find(flights, FlightKey, flightID).Some? && flightID !in old(seatFiles)
      ensures outcome == SeatRefused <==>
        Lists.Find(flights, FlightKey, flightID).Some? && flightID in old(seatFiles) &&
        !SeatMap.Accepts(old(seatFiles)[flightID].seats, seat)
      ensures outcome.FlightNotFound? || outcome.SeatFileMissing? || outcome.SeatRefused? ==>
        bookings == old(bookings) && details == old(details) && seatFiles == old(seatFiles)
      ensures outcome.Booked? || outcome.PaymentDeclined? ==>
        var flight := Lists.Find(flights, FlightKey, flightID).value;
        var b := NewBooking(refNum, name, flightID, flight);
        outcome.refNo == b.refNo &&
        seatFiles == old(seatFiles)[flightID := SeatMap.SeatFile(SeatMap.Header,
          SeatMap.MarkBooked(old(seatFiles)[flightID].seats, seat))] &&
        bookings == [b] + old(bookings) &&
        details == (if confirmed then old(details) + [SevenFields(b)] else old(details)) &&
        (outcome.Booked? <==> confirmed)
    {
      var flight := FindFlight(flightID);
      if flight.None? {
        return FlightNotFound;
      }
      if flightID !in seatFiles {
        return SeatFileMissing;
      }
      var ok := ReserveInSeatFile(flightID, seat);
      if !ok {
        return SeatRefused;
      }
      var b := NewBooking(refNum, name, flightID, flight.value);
      bookings := [b] + bookings;
      if confirmed {
        details := details + [SevenFields(b)];
        outcome := Booked(b.refNo);
      } else {
        outcome := PaymentDeclined(b.refNo);
      }
    }

    /** The seat step of `bookFlight` on the flight's seat file. */
    method ReserveInSeatFile(flightID: string, seat: int) returns (ok: bool)
      requires Valid() && flightID in seatFiles
      modifies this`seatFiles
      ensures Valid()
      ensures ok <==> SeatMap.Accepts(old(seatFiles)[flightID].seats, seat)
      ensures seatFiles == if ok then old(seatFiles)[flightID := SeatMap.SeatFile(SeatMap.Header,
        SeatMap.MarkBooked(old(seatFiles)[flightID].seats, seat))] else old(seatFiles)
    {
      var rewritten;
      ok, rewritten := SeatMap.ReserveSeat(seatFiles[flightID], seat);
      if ok {
        SeatMap.MarkBookedKeepsNumbers(seatFiles[flightID].seats, seat);
        seatFiles := seatFiles[flightID := rewritten];
      }
    }

    /**
     * `cancelBooking`: for the first booking with the reference number,
     * pushes a snapshot of it on the request list, sets its flag to 1 and
     * rewrites `details.csv`. The cancellation file is not written. With no
     * such booking nothing changes.
     */
    method CancelBooking(refNo: string) returns (found: bool)
      modifies this
      ensures found <==> Lists.FirstIndex(old(bookings), BookingKey, refNo).Some?
      ensures found <==> exists i :: 0 <= i < |old(bookings)| && old(bookings)[i].refNo == refNo
      ensures !found ==> bookings == old(bookings) && requests == old(requests) && details == old(details)
      ensures found ==>
        var i := Lists.FirstIndex(old(bookings), BookingKey, refNo).value;
        requests == [Snapshot(old(bookings)[i])] + old(requests) &&
        bookings == old(bookings)[i := SetCancelFlag(old(bookings)[i], 1)] &&
        details == SixFieldRows(bookings)
      ensures flights == old(flights) && flightFile == old(flightFile)
      ensures cancelText == old(cancelText) && seatFiles == old(seatFiles)
    {
      var i := 0;
      while i < |bookings|
        invariant 0 <= i <= |bookings|
        invariant forall j :: 0 <= j < i ==> bookings[j].refNo != refNo
      {
        if bookings[i].refNo == refNo {
          Lists.FirstIndexAt(bookings, BookingKey, refNo, i);
          requests := [Snapshot(bookings[i])] + requests;
          bookings := bookings[i := SetCancelFlag(bookings[i], 1)];
          UpdateDetails();
          return true;
        }
        i := i + 1;
      }
      return false;
    }

    /**
     * `approveCancelRequest` (no menu reaches it): for the first booking with
     * the reference number, clears its flag, rewrites `details.csv` and
     * removes the number's lines from the cancellation file verbatim. The
     * booking and the in-memory request stay.
     */
    method ApproveCancelRequest(refNo: string) returns (found: bool)
      requires (exists i :: 0 <= i < |bookings| && bookings[i].refNo == refNo) ==>
        forall j :: 0 <= j < |CancelFile.Lines(cancelText)| ==>
        CancelFile.ShortLine(CancelFile.Lines(cancelText)[j])
      modifies this
      ensures found <==> Lists.FirstIndex(old(bookings), BookingKey, refNo).Some?
      ensures found <==> exists i :: 0 <= i < |old(bookings)| && old(bookings)[i].refNo == refNo
      ensures !found ==> bookings == old(bookings) && details == old(details) && cancelText == old(cancelText)
      ensures found ==>
        var i := Lists.FirstIndex(old(bookings), BookingKey, refNo).value;
        bookings == old(bookings)[i := SetCancelFlag(old(bookings)[i], 0)] &&
        details == SixFieldRows(bookings) &&
        cancelText == CancelFile.Concat(
          Lists.Without(CancelFile.Lines(old(cancelText)), CancelFile.FirstField, refNo))
      ensures requests == old(requests) && flights == old(flights)
      ensures flightFile == old(flightFile) && seatFiles == old(seatFiles)
    {
      var i := 0;
      while i < |bookings| && bookings[i].refNo != refNo
        invariant 0 <= i <= |bookings|
        invariant forall j :: 0 <= j < i ==> bookings[j].refNo != refNo
      {
        i := i + 1;
      }
      Lists.FirstIndexAt(bookings, BookingKey, refNo, i);
      if i == |bookings| {
        return false;
      }
      bookings := bookings[i := SetCancelFlag(bookings[i], 0)];
      UpdateDetails();
      cancelText := CancelFile.RewriteVerbatim(cancelText, refNo);
      return true;
    }

    /**
     * `updateCSV`: rewrites `details.csv` with one six-field row per
     * booking, walking the list from the head.
     */
    method UpdateDetails()
      modifies this`details
      ensures details == SixFieldRows(bookings)
    {
      var rows: seq<DetailsRow> := [];
      var i := 0;
      while i < |bookings|
        invariant 0 <= i <= |bookings|
        invariant rows == SixFieldRows(bookings)[..i]
      {
        rows := rows + [SixFields(bookings[i])];
        i := i + 1;
      }
      details := rows;
    }

    /** Step 1 of the admin approval: unlink the first booking with the reference number. */
    method UnlinkBooking(refNo: string)
      modifies this`bookings
      ensures bookings == Lists.RemoveFirst(old(bookings), BookingKey, refNo)
    {
      var i := 0;
      while i < |bookings|
        invariant 0 <= i <= |bookings|
        invariant forall j :: 0 <= j < i ==> bookings[j].refNo != refNo
      {
        if bookings[i].refNo == refNo {
          Lists.FirstIndexAt(bookings, BookingKey, refNo, i);
          bookings := bookings[..i] + bookings[i + 1..];
          return;
        }
        i := i + 1;
      }
      Lists.FirstIndexAt(bookings, BookingKey, refNo, i);
    }

    /**
     * `approveCancellationFromRequest` (the admin menu's approval): unlinks
     * the first booking with the reference number, rewrites the cancellation
     * file through the `strtok` filter and rewrites `details.csv`. Both
     * files are rewritten even when no booking matches; the in-memory
     * request list is not touched.
     */
    method ApproveCancellationFromRequest(refNo: string)
      requires forall j :: 0 <= j < |CancelFile.Lines(cancelText)| ==>
        CancelFile.FitsLine(CancelFile.Lines(cancelText)[j])
      modifies this
      ensures bookings == Lists.RemoveFirst(old(bookings), BookingKey, refNo)
      ensures cancelText == CancelFile.Concat(CancelFile.StrtokFilter(CancelFile.Lines(old(cancelText)), refNo))
      ensures details == SixFieldRows(bookings)
      ensures requests == old(requests) && flights == old(flights)
      ensures flightFile == old(flightFile) && seatFiles == old(seatFiles)
    {
      UnlinkBooking(refNo);
      cancelText := CancelFile.RewriteForApproval(cancelText, refNo);
      UpdateDetails();
    }
  }

  /**
   * The add-book-cancel-approve scenario: a flight is added, seat 5 is
   * booked and paid, the booking's cancellation is requested and approved.
   */
  method Scenario(f: Flight, name: string, refNum: int)
    requires 0 <= refNum < 10000
  {
    var store := new Reservations([], [], "", map[]);
    store.AddFlight(f);
    var outcome := store.BookFlight(f.flightID, 5, name, refNum, true);
    SeatMap.FreshFileBooking(5, 6);
    var refNo := Text.RefNo(refNum);
    assert outcome == Booked(refNo);
    assert store.seatFiles[f.flightID].seats[4] == SeatMap.SeatLine(5, SeatMap.Booked);
    assert !SeatMap.Accepts(store.seatFiles[f.flightID].seats, 5);
    assert store.details == [SevenFields(Booking(refNo, name, f.flightID, f.date, f.price, 0))];
    assert store.bookings[0].refNo == refNo;
    var found := store.CancelBooking(refNo);
    assert found;
    assert store.requests == [CancelRequest(refNo, name, f.flightID, f.date, f.price)];
    assert store.bookings[0].cancelRequested == 1;
    store.ApproveCancellationFromRequest(refNo);
    assert store.bookings == [] && store.details == [];
    assert store.cancelText == "";
  }
}
