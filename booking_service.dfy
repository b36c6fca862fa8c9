/** The booking use cases: book a seat (reserve it in the flight store, then
    record a reservation with a fresh id and the current time) and cancel a
    reservation (free its seat, keep its record). */
module Booking {
  import opened Common
  import opened StrongIds
  import opened Ids
  import opened Seats
  import opened Flights
  import opened Reservations
  import opened FlightRepository
  import opened ReservationRepository
  import opened IdGenerator

  datatype BookSeatCommand = BookSeatCommand(flightId: FlightId, orderId: OrderId, seat: Seat)

  datatype BookSeatResult = BookSeatResult(success: bool, reservation: Option<Reservation>, error: string)

  const SeatUnavailable: string := "Seat not available or invalid"

  /** What the use cases read and change, as a value: the flight store, the
      reservation store and the next reservation id. */
  datatype BookingState = BookingState(flights: Inventory, reservations: Records, nextReservationId: nat)

  /** `book_seat`: the result and the state afterwards. It succeeds exactly on a
      bookable seat; a success draws one reservation id and stores one record under
      it, a failure changes nothing. */
  function BookStep(st: BookingState, cmd: BookSeatCommand, now: Timestamp): (out: (BookSeatResult, BookingState))
    ensures out.0.success <==> Bookable(st.flights, cmd.flightId, cmd.seat)
    ensures !out.0.success ==> out.1 == st
    ensures out.0.success ==>
      && out.1.nextReservationId == st.nextReservationId + 1
      && out.1.reservations.Keys == st.reservations.Keys + {st.nextReservationId}
  {
    var (ok, inventory) := TryBook(st.flights, cmd.flightId, cmd.seat);
    if !ok then
      (BookSeatResult(false, None, SeatUnavailable), st)
    else
      var r := Reservation(StrongId(st.nextReservationId), cmd.orderId, cmd.flightId, cmd.seat, now);
      (BookSeatResult(true, Some(r), ""),
       BookingState(inventory, ReservationRepository.Put(st.reservations, r), st.nextReservationId + 1))
  }

  /** `cancel`: whether the reservation was known, and the state afterwards. The
      reservation records and the id counter are never changed. */
  function CancelStep(st: BookingState, id: ReservationId): (out: (bool, BookingState))
    ensures out.0 <==> id.value in st.reservations
    ensures out.1.reservations == st.reservations && out.1.nextReservationId == st.nextReservationId
    ensures out.1.flights.Keys == st.flights.Keys
  {
    if id.value !in st.reservations then (false, st)
    else
      var r := st.reservations[id.value];
      (true, st.(flights := Release(st.flights, r.flightId, r.seat)))
  }

  /** `BookStep` in terms of the outcome of `TryBook`. */
  lemma BookStepAfterTryBook(st: BookingState, cmd: BookSeatCommand, now: Timestamp, ok: bool, inventory: Inventory)
    requires TryBook(st.flights, cmd.flightId, cmd.seat) == (ok, inventory)
    ensures !ok ==> BookStep(st, cmd, now) == (BookSeatResult(false, None, SeatUnavailable), st)
    ensures ok ==>
      var r := Reservation(StrongId(st.nextReservationId), cmd.orderId, cmd.flightId, cmd.seat, now);
      BookStep(st, cmd, now) == (BookSeatResult(true, Some(r), ""),
                                 BookingState(inventory, ReservationRepository.Put(st.reservations, r), st.nextReservationId + 1))
  {
  }

  /** No stored reservation uses an id the generator has yet to issue. */
  ghost predicate IdsAhead(st: BookingState)
  {
    forall k | k in st.reservations :: k < st.nextReservationId
  }

  /** A failed booking reports the fixed reason and touches nothing. */
  lemma BookFailure(st: BookingState, cmd: BookSeatCommand, now: Timestamp)
    requires !Bookable(st.flights, cmd.flightId, cmd.seat)
    ensures BookStep(st, cmd, now) == (BookSeatResult(false, None, SeatUnavailable), st)
  {
  }

  /** A booking succeeds exactly when the seat is free and valid on an existing
      flight; then the result carries the new reservation, built from the command,
      the next id and the clock reading, and that reservation is stored, found
      under its id and listed under its order. */
  lemma BookSuccess(st: BookingState, cmd: BookSeatCommand, now: Timestamp)
    ensures var (result, after) := BookStep(st, cmd, now);
      && (result.success <==> Bookable(st.flights, cmd.flightId, cmd.seat))
      && (result.success <==> result.reservation.Some?)
      && (result.success ==> result.error == "")
      && (result.success ==>
            var r := result.reservation.value;
            && r == Reservation(StrongId(st.nextReservationId), cmd.orderId, cmd.flightId, cmd.seat, now)
            && r.id.value in after.reservations && after.reservations[r.id.value] == r
            && r.id.value in OrderKeys(after.reservations, cmd.orderId)
            && after.flights == TryBook(st.flights, cmd.flightId, cmd.seat).1
            && cmd.seat in after.flights[cmd.flightId.value].booked
            && after.nextReservationId == st.nextReservationId + 1)
  {
  }

  /** With ids ahead of the store, a successful booking adds one record and
      overwrites none, and the invariant is kept. */
  lemma BookKeepsRecords(st: BookingState, cmd: BookSeatCommand, now: Timestamp)
    requires IdsAhead(st)
    ensures IdsAhead(BookStep(st, cmd, now).1)
    ensures var after := BookStep(st, cmd, now).1;
      && st.reservations.Keys <= after.reservations.Keys
      && forall k | k in st.reservations :: after.reservations[k] == st.reservations[k]
  {
  }

  /** Cancelling an unknown id changes nothing; cancelling a known one frees that
      seat on that flight and keeps the record. */
  lemma CancelEffect(st: BookingState, id: ReservationId)
    ensures id.value !in st.reservations ==> CancelStep(st, id) == (false, st)
    ensures id.value in st.reservations ==>
      var r := st.reservations[id.value];
      var (ok, after) := CancelStep(st, id);
      && ok
      && after.reservations == st.reservations
      && after.nextReservationId == st.nextReservationId
      && after.flights == Release(st.flights, r.flightId, r.seat)
      && (r.flightId.value in after.flights ==> r.seat !in after.flights[r.flightId.value].booked)
  {
  }

  /** The same command issued once per clock reading in `times`, in sequence: the
      number of successes, and the state afterwards. */
  function RepeatBook(st: BookingState, cmd: BookSeatCommand, times: seq<Timestamp>): (nat, BookingState)
    decreases |times|
  {
    if times == [] then (0, st)
    else
      var (n, mid) := RepeatBook(st, cmd, times[..|times| - 1]);
      var (result, after) := BookStep(mid, cmd, times[|times| - 1]);
      (n + (if result.success then 1 else 0), after)
  }

  /** One more attempt extends the repetition of a prefix of `times` by one step. */
  lemma RepeatBookPrefix(st: BookingState, cmd: BookSeatCommand, times: seq<Timestamp>, i: nat,
                         n: nat, mid: BookingState, result: BookSeatResult, after: BookingState)
    requires i < |times|
    requires RepeatBook(st, cmd, times[..i]) == (n, mid)
    requires BookStep(mid, cmd, times[i]) == (result, after)
    ensures RepeatBook(st, cmd, times[..i + 1]) == (n + (if result.success then 1 else 0), after)
  {
    assert times[..i + 1][..i] == times[..i];
  }

  /** K attempts at one free seat: exactly the first succeeds, and the state is
      the one the first attempt left. */
  lemma {:induction false} OnlyFirstAttemptSucceeds(st: BookingState, cmd: BookSeatCommand, times: seq<Timestamp>)
    requires |times| >= 1 && Bookable(st.flights, cmd.flightId, cmd.seat)
    ensures RepeatBook(st, cmd, times) == (1, BookStep(st, cmd, times[0]).1)
    decreases |times|
  {
    if |times| > 1 {
      var front := times[..|times| - 1];
      OnlyFirstAttemptSucceeds(st, cmd, front);
      assert front[0] == times[0];
      var mid := BookStep(st, cmd, times[0]).1;
      assert !Bookable(mid.flights, cmd.flightId, cmd.seat);
    } else {
      assert times[..0] == [];
    }
  }

  /** K attempts at a seat that is taken or invalid: none succeeds, nothing changes. */
  lemma {:induction false} NoAttemptSucceeds(st: BookingState, cmd: BookSeatCommand, times: seq<Timestamp>)
    requires !Bookable(st.flights, cmd.flightId, cmd.seat)
    ensures RepeatBook(st, cmd, times) == (0, st)
    decreases |times|
  {
    if times != [] {
      NoAttemptSucceeds(st, cmd, times[..|times| - 1]);
    }
  }

  /** The reservations of order `o` for seat `seat` on flight `f`. */
  ghost function SeatReservations(m: Records, o: OrderId, f: FlightId, seat: Seat): set<nat>
  {
    set k | k in m && m[k].orderId == o && m[k].flightId == f && m[k].seat == seat
  }

  /** After K >= 1 attempts at a free seat, the order holds exactly one more
      reservation for that seat than before. */
  lemma RepeatedBookingAddsOneReservation(st: BookingState, cmd: BookSeatCommand, times: seq<Timestamp>)
    requires |times| >= 1 && Bookable(st.flights, cmd.flightId, cmd.seat) && IdsAhead(st)
    ensures var after := RepeatBook(st, cmd, times).1;
      SeatReservations(after.reservations, cmd.orderId, cmd.flightId, cmd.seat)
        == SeatReservations(st.reservations, cmd.orderId, cmd.flightId, cmd.seat) + {st.nextReservationId}
    ensures var after := RepeatBook(st, cmd, times).1;
      |SeatReservations(after.reservations, cmd.orderId, cmd.flightId, cmd.seat)|
        == |SeatReservations(st.reservations, cmd.orderId, cmd.flightId, cmd.seat)| + 1
  {
    OnlyFirstAttemptSucceeds(st, cmd, times);
    var after := BookStep(st, cmd, times[0]).1;
    var before := SeatReservations(st.reservations, cmd.orderId, cmd.flightId, cmd.seat);
    assert st.nextReservationId !in before;
    assert SeatReservations(after.reservations, cmd.orderId, cmd.flightId, cmd.seat) == before + {st.nextReservationId};
  }

  class BookingService {
    const flights: InMemoryFlightRepository
    const reservations: InMemoryReservationRepository
    const ids: AtomicIdGenerator

    ghost predicate Valid()
      reads this, flights, flights.flights.Values, reservations, ids
    {
      flights.Valid() && reservations.Valid() && ids.Valid()
    }

    ghost function State(): BookingState
      reads this, flights, flights.flights.Values, reservations, ids
    {
      BookingState(flights.Snapshot(), reservations.reservations, ids.reservationCounter)
    }

    constructor (flights: InMemoryFlightRepository, reservations: InMemoryReservationRepository, ids: AtomicIdGenerator)
      requires flights.Valid() && reservations.Valid() && ids.Valid()
      ensures Valid()
      ensures this.flights == flights && this.reservations == reservations && this.ids == ids
    {
      this.flights, this.reservations, this.ids := flights, reservations, ids;
    }

    /** `book_seat`. Ids of the other kinds are not drawn, and the flight map keeps
        its entries. */
    method BookSeat(cmd: BookSeatCommand, now: Timestamp) returns (result: BookSeatResult)
      requires Valid()
      modifies flights.flights.Values, reservations, ids
      ensures Valid()
      ensures (result, State()) == BookStep(old(State()), cmd, now)
      ensures flights.flights == old(flights.flights)
      ensures ids.flightCounter == old(ids.flightCounter) && ids.orderCounter == old(ids.orderCounter)
    {
      ghost var before := State();
      var reserved := flights.TryBookSeat(cmd.flightId, cmd.seat);
      ghost var inventory := flights.Snapshot();
      BookStepAfterTryBook(before, cmd, now, reserved, inventory);
      if !reserved {
        return BookSeatResult(false, None, SeatUnavailable);
      }
      var r := RecordReservation(cmd, now, before.(flights := inventory));
      result := BookSeatResult(true, Some(r), "");
      assert result == BookStep(before, cmd, now).0;
      assert State() == BookStep(before, cmd, now).1;
    }

    /** Steps 2 and 3 of `book_seat`: draw a reservation id, build the reservation
        with the clock reading, and store it. The flight store is not touched. */
    method RecordReservation(cmd: BookSeatCommand, now: Timestamp, ghost start: BookingState) returns (r: Reservation)
      requires Valid() && start == State()
      modifies reservations, ids
      ensures Valid()
      ensures r == Reservation(StrongId(start.nextReservationId), cmd.orderId, cmd.flightId, cmd.seat, now)
      ensures State() == BookingState(start.flights, ReservationRepository.Put(start.reservations, r), start.nextReservationId + 1)
      ensures flights.flights == old(flights.flights)
      ensures ids.flightCounter == old(ids.flightCounter) && ids.orderCounter == old(ids.orderCounter)
    {
      var id := ids.NextReservationId();
      r := Reservation(id, cmd.orderId, cmd.flightId, cmd.seat, now);
      reservations.Add(r);
    }

    /** `cancel`. */
    method Cancel(id: ReservationId) returns (ok: bool)
      requires Valid()
      modifies flights.flights.Values
      ensures Valid()
      ensures (ok, State()) == CancelStep(old(State()), id)
      ensures flights.flights == old(flights.flights)
    {
      var r := reservations.Get(id);
      if r.None? {
        return false;
      }
      flights.ReleaseSeat(r.value.flightId, r.value.seat);
      ok := true;
    }
  }
}
