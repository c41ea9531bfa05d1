# Airline reservation system — verified model

A model of the record management at the heart of `ARS.c`, a single-user
console airline reservation system. The program keeps three singly linked
lists in memory — flights (`flightHead`), bookings (`head`) and cancellation
requests (`headCancelRequests`) — and mirrors them in flat comma-separated
files: `flights.csv`, `details.csv`, `cancellation_requests.csv` and one
`<flightID>_seats.csv` per flight holding that flight's 200 seats.

The model covers:

- the list walks: finding a flight, unlinking a flight or a booking, and
  the three loaders with their different orders (the booking loader pushes
  on the head, the flight loader appends at the tail of the existing list,
  the request loader appends from an empty tail and so replaces the list);
- the seat map: creating a flight's seat file, reading it into the
  200-entry seat grid, the seat check of the booking workflow, and the
  rewrite that books the seat;
- the workflows that change state: adding and removing a flight, booking a
  seat, requesting a cancellation, and the two approval routines with the
  two different filters they apply to the cancellation file;
- the reference-number format `R%04d` and the whitespace trimming routine.

Modules: `Records` (the three records), `Lists` (specifications of the list
walks), `SeatMap`, `CancelFile` (the cancellation file's text, its lines
and the two filters), `Text`, and `Store`, whose class `Reservations` holds
the three lists and the files as fields and whose methods are the
workflows. Each list is the sequence of its records from the head; each
method walks it with a loop and is proved against a specification function
of the old state.

Behaviour that is modelled as the code has it, where it differs from
what a reader of the program's comments and messages would expect (for
example the comment "Insert at the beginning of the list" hides the reversal,
and "Booking cancelled." is printed for an unpaid booking that stays listed):

- The seat rewrite books every `Available` line whose number is the
  requested seat, not only the first one.
- The seat grid takes the status of the last line that names a seat; a
  seat no line names keeps the grid's initial 0 (available), and the seat
  check bounds the seat by the number of seat lines read, not by 200.
- The booking is pushed on the booking list as soon as the seat is taken,
  whether or not the payment is confirmed; only a confirmed payment appends
  it to `details.csv`. The rewrite of `details.csv` at exit writes every
  listed booking, so an unpaid booking reaches the file then. The appended
  line carries a seat number the workflow never assigns, so the model
  leaves the seat number out of the booking.
- Requesting a cancellation does not write the cancellation file (the
  routine that would append to it is never called).
- `approveCancellationFromRequest` rewrites the cancellation file and
  `details.csv` even when no booking matches, and leaves the in-memory
  request list as it is.
- Its filter uses `strtok`, which ends the line at the comma after the
  first field: every kept request is written as its reference number
  alone, without the rest of the line and without the newline, so the
  surviving requests run together on one line.
- `approveCancelRequest` clears the booking's flag instead of removing
  the booking, and its filter copies kept lines verbatim.
- The request loader starts from an empty tail, so a file with at least
  one request replaces the in-memory request list. The program never calls
  it, so it is modelled on its own.

## Model

| member | source | states |
|---|---|---|
| Lists.FirstIndex | ARS.c:194-203 | a found position is inside the list and its record has the key |
| Lists.FirstIndexAt | ARS.c:196-202 | a walk that passes only non-matching records and stops at a match (or the end) has found the first match (or none) |
| Lists.FirstIndexSpec | ARS.c:194-203 | nothing is found exactly when no record has the key; every record before a found one has another key |
| Lists.FindIsFirst | ARS.c:194-203 | lookup fails exactly when the key occurs zero times, and a found record is the first with the key |
| Lists.RemoveFirstDropsOne | ARS.c:760-777 | without a match the list is unchanged; with one, exactly one record with the key goes, it is the first, and the rest keep their order (a permutation minus that record) |
| Lists.DropAt | ARS.c:763-769 | unlinking the node at a position shortens the list by one, removes one occurrence of the key and keeps the records before and after it |
| Lists.RemoveFirstKeepsOthers | ARS.c:148-161 | unlinking leaves the records with other keys exactly as they were, in order |
| Lists.RemoveFirstIsWalk | ARS.c:148-161 | the index-based unlinking agrees with the node-by-node prev/current walk |
| Lists.WithoutSpec | ARS.c:641-649 | the filtered list holds exactly the records with another key, its length is the old length minus the matches, and nothing changes without a match |
| Lists.WithoutIdempotent | ARS.c:641-649 | filtering the same key twice is filtering once |
| Lists.ReversePush | ARS.c:264-268 | pushing a record on the head of a list built by head insertion is reversing the longer input |
| Lists.ReverseAt | ARS.c:264-268 | after head insertion the i-th record is the i-th from the end of the input |
| Lists.ValidMembers | ARS.c:259-270 | a record is loaded exactly when some `fscanf` call (one entry of the input each) produced it |
| Lists.ParsedPrefixStopsAtFirstMalformed | ARS.c:296-302 | a loader that breaks at the first `fscanf` call that fails keeps exactly the records of the earlier calls, in read order |
| SeatMap.CreateSeatFile | ARS.c:737-740 | the new seat file has the header and 200 lines, line i being seat i+1 available |
| SeatMap.ParseSeatGrid | ARS.c:377-390 | every grid entry is the status the last line naming that seat gives (0 if none), and the seat count is the number of lines |
| SeatMap.RewriteSeatFile | ARS.c:421-439 | the rewritten file has the header and the lines with every available line of the seat booked |
| SeatMap.ReserveSeat | ARS.c:377-439 | the seat is accepted exactly when it is positive, within the lines read and not booked; a refused seat leaves the file unchanged, an accepted one books it |
| SeatMap.GridValueIsBit | ARS.c:381-388 | every grid entry is 0 or 1 |
| SeatMap.MarkBookedGrid | ARS.c:431-436 | after the rewrite the booked seat reads as booked whenever some line names it, and every other seat reads as before |
| SeatMap.ReservedSeatIsTaken | ARS.c:409-439 | once reserved, a seat that some line names is refused by the next booking, and every other seat is accepted exactly as before |
| SeatMap.MarkBookedKeepsNumbers | ARS.c:431-436 | the rewrite keeps every line's seat number and position and copies lines of other seats |
| SeatMap.FreshSeatsAvailable | ARS.c:737-740 | on a new seat file every seat reads as available |
| SeatMap.FreshFileBooking | ARS.c:737-740 | on a new flight any seat 1..200 can be booked; after booking it, it is refused and every other seat is still accepted |
| SeatMap.UnnamedSeatIsFree | ARS.c:380-388 | the grid entry of a seat no line names stays 0 |
| SeatMap.UnnamedSeatStaysBookable | ARS.c:409-436 | a seat within the line count that no line names is accepted, the rewrite books nothing, and it is accepted again |
| CancelFile.LineLength | ARS.c:641 | a line read from a non-empty text is non-empty and no longer than the text |
| CancelFile.ConcatLines | ARS.c:641 | the lines `fgets` returns, put back together, are the file's text |
| CancelFile.LinesConcat | ARS.c:641 | a file written from complete lines reads back as those lines |
| CancelFile.LineLengthOfLine | ARS.c:641 | a complete line at the start of the text is what `fgets` returns first |
| CancelFile.LineLengthNoNewline | ARS.c:641 | text without a newline is read as one line |
| CancelFile.FirstFieldSpec | ARS.c:643 | the field `%[^,]` reads is a comma-free prefix of the line ended by a comma or the end |
| CancelFile.FirstFieldIs | ARS.c:643 | a comma-free prefix followed by a comma or the end is the first field |
| CancelFile.RemoveCancellationRequest | ARS.c:626-657 | the rewritten file holds, verbatim and in order, exactly the lines whose first field is not the reference number |
| CancelFile.RewriteVerbatim | ARS.c:626-657 | the rewritten file's text is the kept lines, verbatim and in order |
| CancelFile.VerbatimFilterRereads | ARS.c:641-649 | reading back the rewritten file yields exactly the kept lines |
| CancelFile.LeadingCommas | ARS.c:134 | the delimiters `strtok` skips are the leading commas, and the next character is not one |
| CancelFile.StrtokLine | ARS.c:133-137 | one step of the `strtok` filter writes the chunk of the line the filter specification gives |
| CancelFile.FirstFieldAt | ARS.c:134 | the token between the skipped commas and the next comma is the first field of the rest of the line |
| CancelFile.StrtokFilterSnoc | ARS.c:133-138 | the filter of a file that grew by one line is the old output plus that line's chunk |
| CancelFile.RemoveCancelRequestFromFile | ARS.c:117-144 | the output is, line by line in order, each line cut after its token, dropping lines with the reference number or with no token |
| CancelFile.RewriteForApproval | ARS.c:117-144 | the rewritten file's text is the concatenation of those chunks |
| CancelFile.StrtokWritesFirstFields | ARS.c:133-138 | on lines that start with a field, the approval filter keeps the same lines as the verbatim filter but writes only their first field |
| CancelFile.FieldChunk | ARS.c:134-136 | a line that starts with a field yields that field, or nothing when it is the reference number |
| CancelFile.RequestLineChunk | ARS.c:134-136 | a request line keeps only its five-character reference number |
| CancelFile.ApprovalFilterMergesLines | ARS.c:133-138 | on request lines, the approval filter's output has no newline, so it reads back as at most one line |
| Text.RefNo | ARS.c:209 | the reference number is "R" followed by four digits |
| Text.RefNoRoundTrip | ARS.c:209 | the four digits read back as the random value |
| Text.RefNoOnto | ARS.c:209 | every "R"-and-four-digits string is the reference number of a value below 10000 |
| Text.RefNoInjective | ARS.c:209 | distinct values give distinct reference numbers |
| Text.DropTrailingBlanks | ARS.c:503-504 | the result is a prefix of the string |
| Text.DropTrailingBlanksSpec | ARS.c:503-507 | only spaces and tabs are cut, and the result is empty or ends in another character |
| Text.TrimmedAsSeen | ARS.c:494-508 | the string the caller sees is a prefix of the original |
| Text.TrimmedAsSeenSpec | ARS.c:494-508 | a blank-only string is unchanged; otherwise leading blanks stay, only trailing blanks go and the result ends in a non-blank |
| Text.TrimmedAsSeenIdempotent | ARS.c:494-508 | trimming twice is trimming once |
| Text.CStringSpec | ARS.c:498-501 | the C string of a buffer is its characters before the first NUL |
| Text.TrimWhitespace | ARS.c:494-508 | the caller's string becomes the trimmed one; a blank-only string leaves the buffer untouched, otherwise exactly one NUL is written after the last non-blank |
| Text.TrimCut | ARS.c:503-507 | the position the backward walk stops at is where the trimmed string ends |
| Store.Reservations.FindFlight | ARS.c:194-203 | the result is the first flight with the ID, and none exactly when no flight has it |
| Store.Reservations.LoadBookings | ARS.c:255-275 | with one input entry per `fscanf` call, the list starts with the records of the successful calls in reverse read order, followed by the old list; a failed call adds nothing |
| Store.Reservations.LoadFlights | ARS.c:279-318 | with one input entry per `fscanf` call, the flights of the calls before the first failed one are appended at the tail in read order |
| Store.Reservations.LoadCancelRequests | ARS.c:88-115 | with one input entry per `fscanf` call, the request list becomes the requests of the calls before the first failed one, in read order, or stays as it was when the first call fails |
| Store.Reservations.AddFlight | ARS.c:708-751 | the flight's seat file is the fresh 200-seat file, the flight heads the list, `flights.csv` is the list, and lookup finds the flight |
| Store.Reservations.RemoveFlight | ARS.c:755-777 | the result tells whether some flight had the ID; the first such flight is unlinked and `flights.csv` rewritten only then; seat files and bookings stay |
| Store.Reservations.BookFlight | ARS.c:352-467 | each failure (unknown flight, no seat file, refused seat) changes nothing; otherwise the seat is booked in the seat file, the new booking heads the list, and it is appended to `details.csv` exactly when the payment is confirmed |
| Store.Reservations.ReserveInSeatFile | ARS.c:377-439 | the seat file of the flight is rewritten with the seat booked exactly when the seat check accepts it |
| Store.Reservations.CancelBooking | ARS.c:514-541 | for the first booking with the reference number: its snapshot heads the request list, its flag becomes 1, `details.csv` is rewritten; the cancellation file is untouched; with no booking nothing changes |
| Store.Reservations.ApproveCancelRequest | ARS.c:683-705 | for the first booking with the reference number: its flag becomes 0, `details.csv` is rewritten, the request lines go from the file verbatim; the booking and the in-memory request stay; with no such booking nothing changes and the file is not read |
| Store.Reservations.UpdateDetails | ARS.c:238-252 | `details.csv` is rewritten with one six-field row per listed booking, in list order, and nothing else changes |
| Store.Reservations.UnlinkBooking | ARS.c:148-161 | the first booking with the reference number is unlinked |
| Store.Reservations.ApproveCancellationFromRequest | ARS.c:146-170 | the booking is unlinked, the cancellation file goes through the `strtok` filter and `details.csv` is rewritten from the list, even without a match; the request list is untouched |

## Left out

- File I/O is modelled by values: a file that cannot be opened, a temporary file that cannot be created, `exit(1)` on a failed open, and `remove`/`rename` are not modelled. Every rewrite is taken to succeed.
- The loaders' `fscanf` parsing is abstract. Each entry of a loader's input is the outcome of one `fscanf` call: the record it filled, or a failed call. The text formats of `details.csv`, `flights.csv` and the cancellation file are not modelled.
- How calls map to lines is not modelled. `%[^,]` also matches a newline, so a line with too few fields runs on into the next line. That call and every later one then read out of step with the lines (a record can get a reference number that starts with the newline), and one call can consume two short lines. Nor is the booking loader modelled when a failed call consumes no input and the loop never ends.
- Text fields are unbounded strings. The fixed buffers (`refNo[10]`, `name[30]`, `flightID[10]`, `date[15]`, the 50-byte seat-file name) and a `scanf("%s")` or `fscanf` that overflows them are not modelled.
- Seat lines are given as a seat number and a status. `atoi` of non-numeric text and status texts other than `Available` are not modelled beyond "not available". Seat files whose lines name seats outside 1..200 are excluded because reading them writes outside the 200-entry grid. So are seat files with more than 200 lines, because the display loop then reads one grid entry per line, past the end of the grid (`Store.SeatFileReadable`, part of `Store.Reservations.Valid`). `SeatMap.ReserveSeat`, which works on any file, requires instead that a seat above 200 is not requested on such a file, since the grid check would then read outside the grid.
- Cancellation-file lines longer than the `fgets` buffers (100 and 256 bytes) are excluded, and so are lines that `sscanf` cannot read into the 10-byte reference buffer (an empty or overlong first field). These would be split or would be undefined behaviour.
- Prices and payments are integers. The program stores them as `float`/`double` and prints them with `%.2f`, but the modelled code only copies them. `viewTotalPayments` sums floats and is not modelled.
- `generateRefNo` draws from `srand(time(NULL))`/`rand()`. The random value is a parameter of `Store.Reservations.BookFlight`, so collisions between reference numbers are not excluded.
- Menus, prompts, `printf` output, the seat-grid display, `viewTicket`, `viewAvailableFlights`, `viewCancelRequests` and the admin credential check are console interaction and are left out.
- `saveCancelRequestToFile` and `createCancellationFileIfNotExists` are never called by the program.
- `main` (ARS.c:793-821) loads only bookings and flights at start. `loadCancelRequestsFromFile` is never called, so `Store.Reservations.LoadCancelRequests` models a routine the program does not reach.
- `saveDataToCSV` (ARS.c:175-191), run at exit, writes the same six-field rows as `updateCSV`, and `Store.Reservations.UpdateDetails` covers it. Because it writes every listed booking, a booking whose payment was never confirmed reaches `details.csv` at exit.
- `trimWhitespace` is not called anywhere in the program. It is modelled on its own.
- The booking's seat number is never assigned by the booking workflow, so the seven-field line of `details.csv` is modelled without it. Because that line and the six-field rows differ, no round trip between `details.csv` and the booking list is claimed.
- `Store.Reservations.BookFlight` starts after the flight ID, seat, name and payment answer have been read. The `strcasecmp` comparison with "PAY" is a boolean parameter.
- Freeing unlinked nodes and the aliasing of list nodes are not modelled. Each list is a sequence of records.
