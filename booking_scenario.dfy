/** The end state of the concurrency test, restated sequentially: sixteen callers
    book seat 1A on the same flight for the same order, one after another. */
module BookingScenario {
  import opened Common
  import opened StrongIds
  import opened Ids
  import opened Seats
  import opened AirportCodes
  import opened Flights
  import opened Reservations
  import opened FlightRepository
  import opened ReservationRepository
  import opened IdGenerator
  import opened Booking

  /** Repeated attempts at a free seat, starting from an empty reservation store:
      one success, and the store then holds the one reservation of the first attempt. */
  lemma FromEmptyStore(st: BookingState, cmd: BookSeatCommand, times: seq<Timestamp>)
    requires st.reservations == map[] && |times| >= 1 && Bookable(st.flights, cmd.flightId, cmd.seat)
    ensures var (n, after) := RepeatBook(st, cmd, times);
      && n == 1
      && after.reservations ==
           map[st.nextReservationId := Reservation(StrongId(st.nextReservationId), cmd.orderId, cmd.flightId, cmd.seat, times[0])]
      && OrderKeys(after.reservations, cmd.orderId) == {st.nextReservationId}
  {
    OnlyFirstAttemptSucceeds(st, cmd, times);
  }

  /** The callers of the test, one after another: `cmd` once per clock reading. */
  method BookRepeatedly(booking: BookingService, cmd: BookSeatCommand, times: seq<Timestamp>)
    returns (successes: nat)
    requires booking.Valid()
    modifies booking.flights.flights.Values, booking.reservations, booking.ids
    ensures booking.Valid()
    ensures booking.flights.flights == old(booking.flights.flights)
    ensures (successes, booking.State()) == RepeatBook(old(booking.State()), cmd, times)
  {
    ghost var start := booking.State();
    successes := 0;
    var i := 0;
    while i < |times|
      invariant 0 <= i <= |times|
      invariant booking.Valid()
      invariant booking.flights.flights == old(booking.flights.flights)
      invariant RepeatBook(start, cmd, times[..i]) == (successes, booking.State())
    {
      ghost var mid := booking.State();
      var result := booking.BookSeat(cmd, times[i]);
      RepeatBookPrefix(start, cmd, times, i, successes, mid, result, booking.State());
      if result.success {
        successes := successes + 1;
      }
      i := i + 1;
    }
    assert times[..i] == times;
  }

  /** A fresh generator after the fixture has drawn its flight id and its order id. */
  method DrawFixtureIds() returns (ids: AtomicIdGenerator, flightId: FlightId, orderId: OrderId)
    ensures fresh(ids) && ids.Valid() && ids.reservationCounter == 1
    ensures flightId.value == 1 && orderId.value == 1
  {
    ids := new AtomicIdGenerator();
    flightId := ids.NextFlightId();
    orderId := ids.NextOrderId();
  }

  /** A fresh flight store holding only the fixture's flight: 10 rows of 6 seats,
      WAW to FRA, nothing booked. */
  method FixtureStore(flightId: FlightId, departure: Timestamp) returns (flights: InMemoryFlightRepository)
    ensures fresh(flights) && fresh(flights.flights.Values) && flights.Valid()
    ensures flights.Snapshot() ==
      map[flightId.value := FlightState(flightId, CodeText("WAW"), CodeText("FRA"), departure, 10, 6, {})]
  {
    var created := Flight.New(flightId, CodeText("WAW"), CodeText("FRA"), departure, 10, 6);
    var f := created.value;
    flights := new InMemoryFlightRepository();
    flights.Upsert(f);
  }

  /** The test's fixture: fresh stores and generator, one 10-row, 6-seat flight
      WAW to FRA, and the command that books its seat 1A for a fresh order.
      The order id is drawn before the flight is stored rather than after: the two
      steps touch different counters and objects, so the fixture is the same. */
  method SetUp(departure: Timestamp) returns (booking: BookingService, cmd: BookSeatCommand)
    ensures fresh(booking) && fresh(booking.flights) && fresh(booking.reservations) && fresh(booking.ids)
    ensures fresh(booking.flights.flights.Values)
    ensures booking.Valid()
    ensures cmd.flightId.value == 1 && cmd.orderId.value == 1 && cmd.seat == SeatFields(1, 'A')
    ensures booking.State().flights ==
      map[cmd.flightId.value := FlightState(cmd.flightId, CodeText("WAW"), CodeText("FRA"), departure, 10, 6, {})]
    ensures booking.State().reservations == map[] && booking.State().nextReservationId == 1
    ensures Bookable(booking.State().flights, cmd.flightId, cmd.seat)
  {
    var ids, flightId, orderId := DrawFixtureIds();
    var flights := FixtureStore(flightId, departure);
    var reservations := new InMemoryReservationRepository();
    booking := new BookingService(flights, reservations, ids);
    cmd := BookSeatCommand(flightId, orderId, SeatFields(1, 'A'));
  }

  /** Sixteen callers book seat 1A of the fixture's flight for the same order;
      `times` are the clock readings of the calls. Exactly one call succeeds, and
      the order then lists exactly one reservation, for seat 1A. */
  method OnlyOneCallerBooksSameSeat(departure: Timestamp, times: seq<Timestamp>)
    returns (successes: nat, listed: seq<Reservation>)
    requires |times| == 16
    ensures successes == 1
    ensures |listed| == 1 && listed[0].seat == SeatFields(1, 'A')
  {
    var booking, cmd := SetUp(departure);
    ghost var start := booking.State();
    successes := BookRepeatedly(booking, cmd, times);
    FromEmptyStore(start, cmd, times);
    listed := booking.reservations.ListByOrder(cmd.orderId);
    ListingSize(booking.reservations.reservations, cmd.orderId, listed);
  }
}
