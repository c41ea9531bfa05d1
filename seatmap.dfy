/**
 * The per-flight seat file `<flightID>_seats.csv`: a header line followed by
 * one line `n,Available` or `n,Booked` per seat.
 *
 * A line is modelled by its seat number (the `atoi` of its first field) and
 * its status: `Available` when the text after the comma is exactly
 * "Available" followed by a newline, `Booked` for anything else, which is how
 * the booking workflow reads it.
 */
module SeatMap {

  datatype Status = Available | Booked

  datatype SeatLine = SeatLine(number: int, status: Status)

  datatype SeatFile = SeatFile(header: string, seats: seq<SeatLine>)

  /** The header line every seat file is written with. */
  const Header := "SeatNumber,Status"

  /** Seats created per flight, and the size of the booking workflow's seat grid. */
  const Capacity := 200

  /** The lines `1,Available` … `n,Available`. */
  function FreshSeats(n: nat): seq<SeatLine>
  {
    seq(n, i => SeatLine(i + 1, Available))
  }

  /**
   * The seat grid entry for seat `k` after the booking workflow has read
   * `seats`: 1 (booked) or 0 (available). Every line overwrites the entry of
   * its seat, so the last line numbered `k` decides; a seat no line names
   * keeps the grid's initial 0.
   */
  function GridValue(seats: seq<SeatLine>, k: int): int
    decreases |seats|
  {
    if seats == [] then 0
    else if seats[|seats| - 1].number == k then
      (if seats[|seats| - 1].status == Available then 0 else 1)
    else GridValue(seats[..|seats| - 1], k)
  }

  /** Every line names a seat of the grid (anything else indexes outside it). */
  predicate NumbersInRange(seats: seq<SeatLine>)
  {
    forall i :: 0 <= i < |seats| ==> 1 <= seats[i].number <= Capacity
  }

  /** Some line of the file is numbered `k`. */
  predicate Names(seats: seq<SeatLine>, k: int)
  {
    exists i :: 0 <= i < |seats| && seats[i].number == k
  }

  /**
   * The booking workflow's check: the seat is positive, at most the number of
   * seat lines read, and not booked in the grid.
   */
  predicate Accepts(seats: seq<SeatLine>, seat: int)
  {
    0 < seat <= |seats| && GridValue(seats, seat) == 0
  }

  /**
   * The seat lines after the rewrite: each line numbered `seat` whose status
   * is Available becomes Booked; every other line is copied.
   */
  function MarkBooked(seats: seq<SeatLine>, seat: int): seq<SeatLine>
  {
    seq(|seats|, i requires 0 <= i < |seats| =>
      if seats[i].number == seat && seats[i].status == Available
      then SeatLine(seat, Booked) else seats[i])
  }

  /** Writes the seat file of a newly added flight: the header and 200 available seats. */
  method CreateSeatFile() returns (file: SeatFile)
    ensures file.header == Header
    ensures |file.seats| == Capacity
    ensures forall i :: 0 <= i < Capacity ==> file.seats[i] == SeatLine(i + 1, Available)
    ensures file == SeatFile(Header, FreshSeats(Capacity))
  {
    var seats: seq<SeatLine> := [];
    for i := 1 to Capacity + 1
      invariant |seats| == i - 1
      invariant forall j :: 0 <= j < |seats| ==> seats[j] == SeatLine(j + 1, Available)
    {
      seats := seats + [SeatLine(i, Available)];
    }
    file := SeatFile(Header, seats);
  }

  /**
   * Reads the seat lines into the 200-entry grid (1 = booked) and counts
   * them, as the booking workflow does before asking for a seat.
   */
  method ParseSeatGrid(seats: seq<SeatLine>) returns (grid: seq<int>, totalSeats: int)
    requires NumbersInRange(seats)
    ensures |grid| == Capacity && totalSeats == |seats|
    ensures forall k :: 1 <= k <= Capacity ==> grid[k - 1] == GridValue(seats, k)
  {
    var g := new int[Capacity](_ => 0);
    totalSeats := 0;
    while totalSeats < |seats|
      invariant 0 <= totalSeats <= |seats|
      invariant forall k :: 1 <= k <= Capacity ==> g[k - 1] == GridValue(seats[..totalSeats], k)
    {
      var line := seats[totalSeats];
      if line.number > 0 && line.status == Available {
        g[line.number - 1] := 0;
      } else {
        g[line.number - 1] := 1;
      }
      assert seats[..totalSeats + 1][..totalSeats] == seats[..totalSeats];
      totalSeats := totalSeats + 1;
    }
    assert seats[..totalSeats] == seats;
    grid := g[..];
  }

  /** Copies the seat lines under a fresh header, booking the available lines numbered `seat`. */
  method RewriteSeatFile(file: SeatFile, seat: int) returns (out: SeatFile)
    ensures out == SeatFile(Header, MarkBooked(file.seats, seat))
  {
    var seats: seq<SeatLine> := [];
    var i := 0;
    while i < |file.seats|
      invariant 0 <= i <= |file.seats|
      invariant seats == MarkBooked(file.seats, seat)[..i]
    {
      var line := file.seats[i];
      if line.number == seat && line.status == Available {
        seats := seats + [SeatLine(line.number, Booked)];
      } else {
        seats := seats + [line];
      }
      i := i + 1;
    }
    out := SeatFile(Header, seats);
  }

  /**
   * The seat step of booking a flight: read the grid, reject a seat that is
   * not positive, beyond the seat lines or booked (leaving the file as it
   * was), otherwise rewrite the file with that seat booked.
   */
  method ReserveSeat(file: SeatFile, seat: int) returns (ok: bool, out: SeatFile)
    requires NumbersInRange(file.seats)
    requires !(Capacity < seat <= |file.seats|)
    ensures ok <==> Accepts(file.seats, seat)
    ensures !ok ==> out == file
    ensures ok ==> out == SeatFile(Header, MarkBooked(file.seats, seat))
  {
    var grid, totalSeats := ParseSeatGrid(file.seats);
    GridValueIsBit(file.seats, seat);
    if seat <= 0 || seat > totalSeats || grid[seat - 1] == 1 {
      return false, file;
    }
    ok := true;
    out := RewriteSeatFile(file, seat);
  }

  lemma {:induction false} GridValueIsBit(seats: seq<SeatLine>, k: int)
    ensures GridValue(seats, k) == 0 || GridValue(seats, k) == 1
    decreases |seats|
  {
    if seats != [] && seats[|seats| - 1].number != k {
      GridValueIsBit(seats[..|seats| - 1], k);
    }
  }

  /**
   * What the rewrite does to the grid a later booking reads: the requested
   * seat is booked as soon as some line names it, and every other seat keeps
   * the state it had.
   */
  lemma {:induction false} MarkBookedGrid(seats: seq<SeatLine>, seat: int, k: int)
    ensures |MarkBooked(seats, seat)| == |seats|
    ensures k != seat ==> GridValue(MarkBooked(seats, seat), k) == GridValue(seats, k)
    ensures k == seat ==> GridValue(MarkBooked(seats, seat), k) == (if Names(seats, seat) then 1 else 0)
    decreases |seats|
  {
    var m := MarkBooked(seats, seat);
    if seats != [] {
      var n := |seats| - 1;
      assert m[..n] == MarkBooked(seats[..n], seat);
      MarkBookedGrid(seats[..n], seat, k);
      if k == seat && seats[n].number != seat {
        if Names(seats, seat) {
          var i :| 0 <= i < |seats| && seats[i].number == seat;
          assert seats[..n][i].number == seat;
        }
        if Names(seats[..n], seat) {
          var i :| 0 <= i < n && seats[..n][i].number == seat;
          assert seats[i].number == seat;
        }
      }
    }
  }

  /**
   * After a successful reservation the seat is refused by the next booking
   * attempt, and every other seat is accepted exactly when it was before.
   */
  lemma ReservedSeatIsTaken(seats: seq<SeatLine>, seat: int, k: int)
    requires Accepts(seats, seat) && Names(seats, seat)
    ensures !Accepts(MarkBooked(seats, seat), seat)
    ensures k != seat ==> (Accepts(MarkBooked(seats, seat), k) <==> Accepts(seats, k))
  {
    MarkBookedGrid(seats, seat, seat);
    MarkBookedGrid(seats, seat, k);
  }

  /** The rewrite keeps every line's seat number and position. */
  lemma MarkBookedKeepsNumbers(seats: seq<SeatLine>, seat: int)
    ensures |MarkBooked(seats, seat)| == |seats|
    ensures forall i :: 0 <= i < |seats| ==> MarkBooked(seats, seat)[i].number == seats[i].number
    ensures forall i :: 0 <= i < |seats| && seats[i].number != seat ==> MarkBooked(seats, seat)[i] == seats[i]
  {
  }

  lemma {:induction false} FreshSeatsAvailable(n: nat, k: int)
    ensures GridValue(FreshSeats(n), k) == 0
    decreases n
  {
    if n > 0 {
      assert FreshSeats(n)[..n - 1] == FreshSeats(n - 1);
      FreshSeatsAvailable(n - 1, k);
    }
  }

  /**
   * On the seat file of a newly added flight every seat 1..200 can be booked;
   * once seat `s` is booked, a second booking of it is refused and every
   * other seat can still be booked.
   */
  lemma FreshFileBooking(s: int, k: int)
    requires 1 <= s <= Capacity
    ensures Accepts(FreshSeats(Capacity), s)
    ensures !Accepts(MarkBooked(FreshSeats(Capacity), s), s)
    ensures k != s && 1 <= k <= Capacity ==> Accepts(MarkBooked(FreshSeats(Capacity), s), k)
  {
    var seats := FreshSeats(Capacity);
    FreshSeatsAvailable(Capacity, s);
    FreshSeatsAvailable(Capacity, k);
    assert seats[s - 1].number == s;
    ReservedSeatIsTaken(seats, s, k);
  }

  /** The grid entry of a seat no line names is never written, so it stays 0. */
  lemma {:induction false} UnnamedSeatIsFree(seats: seq<SeatLine>, k: int)
    requires !Names(seats, k)
    ensures GridValue(seats, k) == 0
    decreases |seats|
  {
    if seats != [] {
      var n := |seats| - 1;
      assert seats[n].number != k;
      assert forall i :: 0 <= i < n ==> seats[..n][i] == seats[i];
      UnnamedSeatIsFree(seats[..n], k);
    }
  }

  /**
   * A seat that no line names but that is within the line count passes the
   * check (its grid entry was never written), the rewrite books nothing, and
   * the same seat passes again afterwards.
   */
  lemma UnnamedSeatStaysBookable(seats: seq<SeatLine>, k: int)
    requires 0 < k <= |seats| && !Names(seats, k)
    ensures Accepts(seats, k)
    ensures MarkBooked(seats, k) == seats
    ensures Accepts(MarkBooked(seats, k), k)
  {
    UnnamedSeatIsFree(seats, k);
    assert forall i :: 0 <= i < |seats| ==> seats[i].number != k;
    assert MarkBooked(seats, k) == seats;
  }
}
