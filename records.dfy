/**
 * The three record shapes the reservation system keeps in memory and in its
 * comma-separated files: flights, bookings and cancellation requests.
 *
 * Text fields are plain strings. Prices and payments are whole numbers of
 * the smallest currency unit; the system only copies them from one record
 * to another, so nothing here depends on how they are written out.
 */
module Records {

  datatype Option<+T> = None | Some(value: T)

  /** One row of the flight catalog (`flights.csv`). */
  datatype Flight = Flight(
    flightID: string,
    date: string,
    time: string,
    source: string,
    destination: string,
    price: int)

  /**
   * One booking (`details.csv`). The seat number the booking struct declares
   * is never assigned by the booking workflow, so it is not part of the model.
   * `cancelRequested` is a C int: 0 or 1 when written by the program, any
   * integer when read back from the file.
   */
  datatype Booking = Booking(
    refNo: string,
    name: string,
    flightID: string,
    date: string,
    payment: int,
    cancelRequested: int)

  /** A pending cancellation: a snapshot of a booking taken at request time. */
  datatype CancelRequest = CancelRequest(
    refNo: string,
    name: string,
    flightID: string,
    date: string,
    payment: int)

  /** Lookup keys: flights are found by ID, bookings and requests by reference number. */
  function FlightKey(f: Flight): string { f.flightID }

  function BookingKey(b: Booking): string { b.refNo }

  function RequestKey(c: CancelRequest): string { c.refNo }

  /** The request a cancellation creates: the booking's fields without its flag. */
  function Snapshot(b: Booking): CancelRequest
  {
    CancelRequest(b.refNo, b.name, b.flightID, b.date, b.payment)
  }
}
