# Flight booking core, modelled in Dafny

This project models the core of a small flight seat-booking service written in C++. It covers:

- **Value types.**
  - `StrongId<Tag>`: a tagged integer id. `FlightId`, `OrderId` and `ReservationId` are distinct types that cannot be mixed up.
  - `Seat`: a row of at least 1 and an upper-case letter, such as `12A`.
  - `AirportCode`: three letters, stored in upper case.
- **`Flight`.** A flight has a fixed id, route, departure and seat geometry (rows × seats per row, at most 26). It holds the set of seats booked on it.
- **`AtomicIdGenerator`.** It draws three independent id sequences, each starting at 1.
- **In-memory repositories.**
  - The flight repository stores copies of flights keyed by id value. Its operations are get, search by route (sorted by id), upsert, try-book-seat and release-seat.
  - The reservation repository offers add, get and list-by-order.
- **`BookingService`.**
  - `book_seat` (1) books the seat in the flight repository, (2) draws a reservation id, and (3) stores the reservation.
  - `cancel` releases the seat of a known reservation and keeps the record.
- **The concurrency test, restated sequentially.** It rebuilds the test fixture and books seat 1A sixteen times for one order. Exactly one attempt succeeds, and the order lists exactly one reservation.

The model works in two layers:

- Classes with mutable fields model the objects the source updates in place: `Flight`, the two repositories, the id generator and the booking service.
- Each state-changing method is tied, in its `ensures`, to a pure function over a value snapshot of the state:
  - `FlightRepository.TryBook`, `Release` and `Put` over an `Inventory` (flight id value ↦ `FlightState`);
  - `ReservationRepository.Put` over `Records`;
  - `Booking.BookStep` and `Booking.CancelStep` over a `BookingState`.

The properties the source promises are then proved as lemmas about those functions, for example:

- a booked seat stays booked, so a second attempt fails;
- release is idempotent;
- search results are unique;
- repeated booking creates one reservation.

Clock readings are parameters of type `Timestamp` (an integer). `std::to_string` of a row is modelled by `Decimal.ToDecimal`.

## Model

| member | source | states |
|---|---|---|
| StrongIds.Default | include/flight/util/strong_id.hpp:16-28 | a default-constructed id has value 0 |
| StrongIds.DefaultIsLeast | include/flight/util/strong_id.hpp:16-28 | the default id compares less than or equal to every id; no id is before it |
| StrongIds.ValueRoundTrip | include/flight/util/strong_id.hpp:17-19 | `value()` of an id built from `v` is `v`; rebuilding from `value()` gives the same id |
| StrongIds.Compare | include/flight/util/strong_id.hpp:22-25 | three-way comparison: equal iff the ids are equal, less iff the value is smaller, greater iff it is larger |
| StrongIds.CompareIsStrongOrder | include/flight/util/strong_id.hpp:22-25 | the comparison is antisymmetric, transitive and total, and agrees with equality of the values |
| IdGenerator.AtomicIdGenerator.constructor | include/flight/infrastructure/atomic_id_generator.hpp:22-24 | all three counters start at 1, with nothing issued |
| IdGenerator.AtomicIdGenerator.NextFlightId | include/flight/infrastructure/atomic_id_generator.hpp:11-13 | returns the current flight counter and increments it; the id was never issued before; the other two sequences are unchanged |
| IdGenerator.AtomicIdGenerator.NextReservationId | include/flight/infrastructure/atomic_id_generator.hpp:14-16 | returns the current reservation counter and increments it; fresh id; the other sequences are unchanged |
| IdGenerator.AtomicIdGenerator.NextOrderId | include/flight/infrastructure/atomic_id_generator.hpp:17-19 | returns the current order counter and increments it; fresh id; the other sequences are unchanged |
| IdGenerator.FirstIds | include/flight/infrastructure/atomic_id_generator.hpp:11-24 | a new generator gives flight ids 1, 2, 3 in increasing order, even with reservation and order ids (each 1) drawn between them |
| Common.ToUpper | include/flight/domain/seat.hpp:17-19 | the result is upper case exactly when the input is a letter; a lower-case letter maps to its upper-case form, anything else is unchanged |
| Decimal.ToDecimal | include/flight/domain/seat.hpp:29 | the decimal text of a number is non-empty, all digits, with no leading zero unless it is "0" |
| Decimal.FromToDecimal | include/flight/domain/seat.hpp:29 | reading the decimal text back gives the number |
| Seats.NewSeat | include/flight/domain/seat.hpp:13-23 | a seat is built exactly when the row is non-zero and the letter is a letter; the row is kept and the letter is upper-cased |
| Seats.ToString | include/flight/domain/seat.hpp:28-30 | the text is the row in decimal, with no leading zero, followed by the letter |
| Seats.ToStringInjective | include/flight/domain/seat.hpp:28-30 | two seats with the same text are the same seat |
| Seats.Compare | include/flight/domain/seat.hpp:33-36 | seats are ordered by row, then by letter; equal iff the same seat |
| Seats.CompareIsStrongOrder | include/flight/domain/seat.hpp:33-36 | the seat order is antisymmetric, transitive and total |
| Seats.EqualityIsFieldwise | include/flight/domain/seat.hpp:32 | two seats are equal iff their rows and letters are |
| Seats.Examples | include/flight/domain/seat.hpp:13-30 | row 0 is refused, `1g` becomes `1G`, a digit letter is refused, and seat 12A prints as "12A" |
| AirportCodes.NewAirportCode | include/flight/domain/airport_code.hpp:11-23 | succeeds exactly on three letters, and then holds their upper-case forms |
| AirportCodes.ConstructsIsDeterministic | include/flight/domain/airport_code.hpp:11-23 | construction has one outcome per input text |
| AirportCodes.ReconstructIsIdentity | include/flight/domain/airport_code.hpp:11-25 | building a code from an existing code's `value()` gives the same code |
| AirportCodes.CaseInsensitive | include/flight/domain/airport_code.hpp:15-18 | two texts that agree letter by letter up to case build equal codes |
| AirportCodes.Examples | include/flight/domain/airport_code.hpp:11-23 | "waw" gives WAW; a two-letter text and a text with a digit are refused |
| Flights.CheckGeometry | include/flight/domain/flight.hpp:27-32 | the geometry passes exactly when rows ≥ 1 and 1 ≤ seats per row ≤ 26; the too-many-seats error is reported only when rows are non-zero |
| Flights.Flight.New | include/flight/domain/flight.hpp:19-33 | construction fails with the geometry check's error, or gives a new valid flight with the given fields and nothing booked |
| Flights.Flight.constructor | include/flight/domain/flight.hpp:19-33 | on a legal geometry: a valid flight with the given fields and no bookings |
| Flights.Flight.Copy | src/infrastructure/in_memory_flight_repository.cpp:12 | a copy is a flight with the same state |
| Flights.Flight.Capacity | include/flight/domain/flight.hpp:42 | capacity is the number of grid seats (rows × seats per row), and it fits in 32 bits |
| Flights.GridSeats | include/flight/domain/flight.hpp:42-48 | the grid holds exactly the seats with row ≤ rows and a letter before `'A' + n`; it has rows × n seats |
| Flights.Flight.IsSeatValid | include/flight/domain/flight.hpp:44-48 | on a legal geometry, a seat is valid iff it is one of the grid's seats |
| Flights.ConsistentIffWithinGrid | include/flight/domain/flight.hpp:44-77 | the flight's invariant holds exactly when its geometry is legal and every booked seat is one of its grid's seats |
| Flights.FitsIffInGrid | include/flight/domain/flight.hpp:44-48 | the geometry check of `is_seat_valid` agrees with grid membership |
| Flights.Flight.IsBooked | include/flight/domain/flight.hpp:51-53 | on a valid flight a booked seat is always a valid seat |
| Flights.BookedWithinCapacity | include/flight/domain/flight.hpp:42-77 | a consistent flight never has more bookings than its capacity |
| Flights.Flight.BookSeat | include/flight/domain/flight.hpp:55-63 | refuses an invalid seat first, then an already booked one; otherwise adds exactly that seat; the invariant holds |
| Flights.Flight.ReleaseSeat | include/flight/domain/flight.hpp:65-67 | removes only that seat, with no error when it was not booked |
| FlightRepository.InMemoryFlightRepository.constructor | src/infrastructure/in_memory_flight_repository.cpp:8-51 | a new repository is empty and valid |
| FlightRepository.InMemoryFlightRepository.SnapshotWellFormed | src/infrastructure/in_memory_flight_repository.cpp:30-51 | every stored flight is filed under its own id and keeps its invariant |
| FlightRepository.InMemoryFlightRepository.Get | src/infrastructure/in_memory_flight_repository.cpp:8-13 | none iff the id is not stored; otherwise a fresh copy equal to the stored flight |
| FlightRepository.InMemoryFlightRepository.Upsert | src/infrastructure/in_memory_flight_repository.cpp:30-33 | the store becomes the old one with that flight's entry inserted or replaced by a copy |
| FlightRepository.Put | src/infrastructure/in_memory_flight_repository.cpp:30-33 | the flight is found under its id, which is added to the keys, and only that entry can differ from before |
| FlightRepository.UpsertReplaces | src/infrastructure/in_memory_flight_repository.cpp:30-33 | after upsert the id is present with the new bookings; all other entries are unchanged |
| FlightRepository.UpsertPreservesWellFormed | src/infrastructure/in_memory_flight_repository.cpp:30-33 | upserting a consistent flight keeps the store well formed |
| FlightRepository.BookableIffFreeGridSeat | src/infrastructure/in_memory_flight_repository.cpp:37-40 | the condition under which `try_book_seat` books: the flight is stored and the seat is one of its grid's free seats |
| FlightRepository.TryBook | src/infrastructure/in_memory_flight_repository.cpp:35-44 | succeeds exactly on a bookable seat, which is free before and booked after; the key set is kept; a refusal leaves the store as it was |
| FlightRepository.InMemoryFlightRepository.TryBookSeat | src/infrastructure/in_memory_flight_repository.cpp:35-44 | the result and the new store are those of `TryBook` on the old store |
| FlightRepository.TryBookEffect | src/infrastructure/in_memory_flight_repository.cpp:35-44 | a refused attempt changes nothing; a success adds exactly that seat to that flight; other flights and the key set are unchanged |
| FlightRepository.TryBookPreservesWellFormed | src/infrastructure/in_memory_flight_repository.cpp:35-44 | booking keeps every flight consistent |
| FlightRepository.SecondAttemptFails | src/infrastructure/in_memory_flight_repository.cpp:35-44 | after a successful booking, and any operations that neither release that seat nor replace that flight, a second attempt fails and changes nothing |
| FlightRepository.StaysBooked | src/infrastructure/in_memory_flight_repository.cpp:35-51 | a booked seat stays booked under any sequence of bookings, releases of other seats and upserts of other flights |
| FlightRepository.Release | src/infrastructure/in_memory_flight_repository.cpp:46-51 | the key set is kept, the seat is free afterwards on a stored flight, and no flight gains a booking |
| FlightRepository.InMemoryFlightRepository.ReleaseSeat | src/infrastructure/in_memory_flight_repository.cpp:46-51 | the new store is `Release` of the old one |
| FlightRepository.ReleaseProperties | src/infrastructure/in_memory_flight_repository.cpp:46-51 | releasing on an unknown flight is a no-op; release is idempotent; after it a seat that fits can be booked again |
| FlightRepository.ReleasePreservesWellFormed | src/infrastructure/in_memory_flight_repository.cpp:46-51 | releasing keeps every flight consistent |
| FlightRepository.InMemoryFlightRepository.Search | src/infrastructure/in_memory_flight_repository.cpp:15-28 | returns fresh copies of exactly the stored flights on that route, strictly ordered by id |
| FlightRepository.InMemoryFlightRepository.CollectMatching | src/infrastructure/in_memory_flight_repository.cpp:18-23 | collects a copy of every stored flight on the route and nothing else, each once |
| FlightRepository.SortById | src/infrastructure/in_memory_flight_repository.cpp:25-26 | the output is a permutation of the input, strictly increasing by id |
| FlightRepository.InsertById | src/infrastructure/in_memory_flight_repository.cpp:25-26 | inserting into a sorted sequence adds exactly that flight and keeps it sorted |
| FlightRepository.SortedIsSearchResult | src/infrastructure/in_memory_flight_repository.cpp:15-28 | sorting the collected matches gives a search result |
| FlightRepository.SearchResultIsUnique | src/infrastructure/in_memory_flight_repository.cpp:15-28 | a store has at most one search result per route, so the result is deterministic |
| FlightRepository.SearchEmptyIffNoMatch | src/infrastructure/in_memory_flight_repository.cpp:15-28 | the result is empty iff no stored flight has that route |
| FlightRepository.SearchTail | src/infrastructure/in_memory_flight_repository.cpp:15-28 | dropping the first result's flight from the store leaves the rest of the result as its search result |
| ReservationRepository.InMemoryReservationRepository.constructor | src/infrastructure/in_memory_reservation_repository.cpp:7-30 | a new repository is empty |
| ReservationRepository.InMemoryReservationRepository.Add | src/infrastructure/in_memory_reservation_repository.cpp:7-10 | the store becomes the old one with the reservation inserted or replaced under its id |
| ReservationRepository.Put | src/infrastructure/in_memory_reservation_repository.cpp:7-10 | the record is found under its id, that id is added to the keys, and a store keyed by id stays keyed |
| ReservationRepository.AddThenFind | src/infrastructure/in_memory_reservation_repository.cpp:7-18 | after add, the id maps to that reservation; other entries are unchanged; records stay keyed by their own id |
| ReservationRepository.InMemoryReservationRepository.Get | src/infrastructure/in_memory_reservation_repository.cpp:12-18 | none iff the id is absent; otherwise the stored reservation, which carries that id |
| ReservationRepository.InMemoryReservationRepository.ListByOrder | src/infrastructure/in_memory_reservation_repository.cpp:20-30 | lists every stored reservation of the order exactly once, and nothing else |
| ReservationRepository.ListingSize | src/infrastructure/in_memory_reservation_repository.cpp:20-30 | the listing has as many entries as the order has reservations |
| Booking.BookingService.constructor | include/flight/application/booking_service.hpp:28-32 | given valid repositories and generator, the service refers to them and is valid |
| Booking.BookStep | include/flight/application/booking_service.hpp:35-49 | succeeds exactly on a bookable seat; a failure changes nothing; a success advances the reservation counter by one and adds exactly the key it held |
| Booking.CancelStep | include/flight/application/booking_service.hpp:53-58 | returns true exactly for a stored reservation id; records, counter and the flight keys are never changed |
| Booking.BookingService.BookSeat | include/flight/application/booking_service.hpp:35-49 | the result and the new state are those of `BookStep`; the flight, order and id-counter state outside it is untouched |
| Booking.BookingService.RecordReservation | include/flight/application/booking_service.hpp:41-46 | builds the reservation with the next reservation id and the clock reading, stores it and advances the counter; the flight store and the other counters are unchanged |
| Booking.BookFailure | include/flight/application/booking_service.hpp:37-39 | an unavailable or invalid seat gives the error result and leaves the whole state unchanged, including the id counter |
| Booking.BookSuccess | include/flight/application/booking_service.hpp:35-49 | success iff the seat was bookable; on success the reservation has the next id and the command's fields, it is stored and listed for the order, and the seat is booked |
| Booking.BookKeepsRecords | include/flight/application/booking_service.hpp:41-46 | while every stored id is below the next reservation id, booking never removes or alters an existing reservation, and keeps that invariant |
| Booking.BookingService.Cancel | include/flight/application/booking_service.hpp:53-58 | the result and the new state are those of `CancelStep` |
| Booking.CancelEffect | include/flight/application/booking_service.hpp:53-58 | an unknown id returns false and changes nothing; a known one releases its seat and keeps the reservation record |
| Booking.OnlyFirstAttemptSucceeds | tests/booking_concurrency_test.cpp:37-48 | repeated identical bookings of a bookable seat: exactly one succeeds, and the end state is that of the first |
| Booking.NoAttemptSucceeds | tests/booking_concurrency_test.cpp:37-48 | repeated bookings of a seat that is not bookable all fail and change nothing |
| Booking.RepeatedBookingAddsOneReservation | tests/booking_concurrency_test.cpp:48-51 | while every stored id is below the next reservation id, repeated bookings of a bookable seat add exactly one reservation for that order, flight and seat |
| BookingScenario.FromEmptyStore | tests/booking_concurrency_test.cpp:48-51 | from an empty reservation store, repeated bookings give one success, and the order then has exactly one reservation, the first attempt's |
| BookingScenario.BookRepeatedly | tests/booking_concurrency_test.cpp:37-46 | the success count and the new state are those of `RepeatBook` |
| BookingScenario.DrawFixtureIds | tests/booking_concurrency_test.cpp:18-29 | a fresh generator that has issued flight id 1 and order id 1, with the reservation counter still at 1 |
| BookingScenario.FixtureStore | tests/booking_concurrency_test.cpp:20-26 | a fresh, valid flight store holding only a 10 × 6 flight WAW–FRA with nothing booked |
| BookingScenario.SetUp | tests/booking_concurrency_test.cpp:18-30 | a fresh, valid service whose flight store holds exactly the 10 × 6 flight WAW–FRA with flight id 1 and nothing booked; order id 1; no reservations; next reservation id 1; seat 1A bookable |
| BookingScenario.OnlyOneCallerBooksSameSeat | tests/booking_concurrency_test.cpp:17-51 | sixteen attempts: exactly one succeeds, and the order lists exactly one reservation, for seat 1A |

## Left out

- Locks, atomics and memory orders (`std::shared_mutex`, `std::atomic`, `memory_order_relaxed`) are not modelled. Each repository and generator method is one atomic step.
- Interleavings inside `book_seat` are not modelled: its three steps run to completion before the next call starts.
- The concurrency test's threads (creation and joining) are not modelled. `BookingScenario.OnlyOneCallerBooksSameSeat` runs the sixteen calls one after another. It therefore states the sequential outcome, not that the outcome holds under every interleaving.
- The clock is left out. `clock_.now()` becomes a parameter of type `Timestamp`, and `time_point` becomes an opaque integer.
- IdGenerator.AtomicIdGenerator.NextFlightId: ids are unbounded naturals, so 64-bit wrap-around after 2^64 ids is not modelled. The same holds for NextReservationId and NextOrderId.
- Strings are sequences of Unicode characters, while C++ `std::string::size()` counts bytes (airport_code.hpp:12). Construction succeeds only on three ASCII letters, and a seat letter is one `char` (seat.hpp:13), so the outcomes agree; byte encodings are not modelled.
- Row and seats-per-row are range-restricted integers (`U16`, `U8`), so callers cannot pass a value that C++ would truncate.
- Exceptions become `Option`, `Result` or `Outcome` values:
  - `invalid_argument` from the `Seat`, `AirportCode` and `Flight` constructors;
  - `invalid_argument` and `runtime_error` from `book_seat`.
- Flights.Flight.constructor requires a legal geometry. The throwing path is `Flights.Flight.New`, which returns the error instead.
- Flights.Flight.Capacity requires a legal geometry, which every constructed flight has.
- `std::sort` is modelled by insertion into a new sequence (`FlightRepository.SortById`), not by sorting in place. Only its result, sorted with the same elements, is modelled.
- The visiting order of `std::unordered_map` is unspecified. The model visits keys in an arbitrary order, and `ListByOrder` promises no order.
- The repository and generator interfaces are left out because they only declare abstract methods: `flight_repository.hpp`, `reservation_repository.hpp` and `id_generator.hpp`. The classes here are the in-memory implementations.
- `flight_search_service.hpp` only forwards to the repository's search.
- `system_clock.hpp` and `clock.hpp` are left out because they are I/O.
- `src/cli/main.cpp` is left out because it is a command-line front end (I/O).
- The stream output `operator<<` of `StrongId` is left out because it is output.
- `ids.hpp` and `reservation.hpp` define data only. They are the `Ids` type aliases and the `Reservations.Reservation` datatype; accessors are its fields.
