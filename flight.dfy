/** A flight: fixed identity, route and seat geometry, and the set of seats
    booked on it. */
module Flights {
  import opened Common
  import opened Ids
  import opened Seats
  import opened AirportCodes

  /** Why the constructor refuses its arguments. */
  datatype GeometryError = ZeroDimension | TooManySeatsPerRow

  /** Why `book_seat` refuses a seat. */
  datatype BookError = InvalidSeat | AlreadyBooked

  /** A snapshot of a flight, as a value. */
  datatype FlightState = FlightState(
    id: FlightId,
    origin: AirportCode,
    destination: AirportCode,
    departure: Timestamp,
    rows: U16,
    seatsPerRow: U8,
    booked: set<Seat>)

  /** The checks of the constructor, in the order it makes them. */
  function CheckGeometry(rows: U16, seatsPerRow: U8): (r: Outcome<GeometryError>)
    ensures r.Pass? <==> 1 <= rows && 1 <= seatsPerRow <= 26
    ensures r == Fail(TooManySeatsPerRow) <==> rows != 0 && seatsPerRow > 26
  {
    if rows == 0 || seatsPerRow == 0 then Fail(ZeroDimension)
    else if seatsPerRow > 26 then Fail(TooManySeatsPerRow)
    else Pass
  }

  predicate GeometryOk(rows: U16, seatsPerRow: U8)
  {
    CheckGeometry(rows, seatsPerRow).Pass?
  }

  /** `'A' + seats_per_row - 1`, the last letter of a row. */
  function MaxLetter(seatsPerRow: U8): int
  {
    'A' as int + seatsPerRow - 1
  }

  /** The geometry check of `is_seat_valid`. */
  predicate Fits(rows: U16, seatsPerRow: U8, s: Seat)
  {
    1 <= s.row <= rows && 'A' <= s.letter && s.letter as int <= MaxLetter(seatsPerRow)
  }

  /** The flight's invariant: a legal geometry, and only seats that fit it are booked. */
  ghost predicate Consistent(f: FlightState)
  {
    GeometryOk(f.rows, f.seatsPerRow) && forall s | s in f.booked :: Fits(f.rows, f.seatsPerRow, s)
  }

  function LetterAt(k: nat): (c: char)
    requires k < 26
    ensures IsUpper(c) && c as int == 'A' as int + k
  {
    ('A' as int + k) as char
  }

  /** The first `n` seats of row `row`: A, B, ... */
  ghost function RowSeats(row: U16, n: nat): (r: set<Seat>)
    requires 1 <= row && n <= 26
    ensures |r| == n
    ensures forall s: Seat :: s in r <==> s.row == row && s.letter as int < 'A' as int + n
  {
    if n == 0 then {} else RowSeats(row, n - 1) + {SeatFields(row, LetterAt(n - 1))}
  }

  /** Every seat of the first `rows` rows with `n` seats each. */
  ghost function GridSeats(rows: U16, n: nat): (r: set<Seat>)
    requires n <= 26
    ensures |r| == rows * n
    ensures forall s: Seat :: s in r <==> s.row <= rows && s.letter as int < 'A' as int + n
    decreases rows
  {
    if rows == 0 then {}
    else
      var earlier, last := GridSeats(rows - 1, n), RowSeats(rows, n);
      GridStep(rows, n, earlier, last);
      earlier + last
  }

  /** Adding row `rows` to the grid of the rows before it. */
  lemma GridStep(rows: U16, n: nat, earlier: set<Seat>, last: set<Seat>)
    requires 1 <= rows && n <= 26
    requires |earlier| == (rows - 1) * n && |last| == n
    requires forall s: Seat :: s in earlier <==> s.row <= rows - 1 && s.letter as int < 'A' as int + n
    requires forall s: Seat :: s in last <==> s.row == rows && s.letter as int < 'A' as int + n
    ensures |earlier + last| == rows * n
    ensures forall s: Seat :: s in earlier + last <==> s.row <= rows && s.letter as int < 'A' as int + n
  {
    assert earlier !! last;
    assert |earlier + last| == |earlier| + |last|;
    MulSucc(rows - 1, n);
  }

  lemma MulSucc(a: nat, b: nat)
    ensures a * b + b == (a + 1) * b
  {
  }

  lemma MulMonotone(a: nat, b: nat, c: nat)
    requires a <= b
    ensures a * c <= b * c
  {
  }

  /** A seat fits a legal geometry exactly when it is one of the grid's seats. */
  lemma FitsIffInGrid(rows: U16, seatsPerRow: U8, s: Seat)
    requires GeometryOk(rows, seatsPerRow)
    ensures Fits(rows, seatsPerRow, s) <==> s in GridSeats(rows, seatsPerRow)
  {
  }

  /** The flight's invariant says the geometry is legal and the bookings are a
      subset of the grid. */
  lemma ConsistentIffWithinGrid(f: FlightState)
    ensures Consistent(f) <==> GeometryOk(f.rows, f.seatsPerRow) && f.booked <= GridSeats(f.rows, f.seatsPerRow)
  {
  }

  /** A consistent flight never holds more bookings than it has seats. */
  lemma BookedWithinCapacity(f: FlightState)
    requires Consistent(f)
    ensures |f.booked| <= f.rows * f.seatsPerRow
  {
    var grid := GridSeats(f.rows, f.seatsPerRow);
    assert f.booked <= grid;
    assert |f.booked| <= |grid| by {
      var rest := grid - f.booked;
      assert grid == f.booked + rest;
      assert f.booked !! rest;
    }
  }

  class Flight {
    const id: FlightId
    const origin: AirportCode
    const destination: AirportCode
    const departure: Timestamp
    const rows: U16
    const seatsPerRow: U8
    var booked: set<Seat>

    ghost function View(): FlightState
      reads this
    {
      FlightState(id, origin, destination, departure, rows, seatsPerRow, booked)
    }

    ghost predicate Valid()
      reads this
    {
      Consistent(View())
    }

    /** The constructor proper, for arguments that pass its checks. */
    constructor (id: FlightId, origin: AirportCode, destination: AirportCode,
                 departure: Timestamp, rows: U16, seatsPerRow: U8)
      requires GeometryOk(rows, seatsPerRow)
      ensures Valid()
      ensures View() == FlightState(id, origin, destination, departure, rows, seatsPerRow, {})
    {
      this.id, this.origin, this.destination, this.departure := id, origin, destination, departure;
      this.rows, this.seatsPerRow := rows, seatsPerRow;
      booked := {};
    }

    /** The implicit copy constructor: an independent flight with the same state. */
    constructor Copy(other: Flight)
      requires other.Valid()
      ensures Valid() && View() == other.View()
    {
      id, origin, destination, departure := other.id, other.origin, other.destination, other.departure;
      rows, seatsPerRow := other.rows, other.seatsPerRow;
      booked := other.booked;
    }

    /** Construction with its checks: the error it throws, or a new flight with nothing booked. */
    static method New(id: FlightId, origin: AirportCode, destination: AirportCode,
                      departure: Timestamp, rows: U16, seatsPerRow: U8)
      returns (r: Result<Flight, GeometryError>)
      ensures r.Failure? ==> CheckGeometry(rows, seatsPerRow) == Fail(r.error)
      ensures r.Success? <==> GeometryOk(rows, seatsPerRow)
      ensures r.Success? ==> fresh(r.value) && r.value.Valid()
      ensures r.Success? ==> r.value.View() == FlightState(id, origin, destination, departure, rows, seatsPerRow, {})
    {
      var check := CheckGeometry(rows, seatsPerRow);
      if check.Fail? {
        return Failure(check.error);
      }
      var f := new Flight(id, origin, destination, departure, rows, seatsPerRow);
      r := Success(f);
    }

    /** `capacity()`: the number of seats the geometry has. */
    function Capacity(): (c: nat)
      requires GeometryOk(rows, seatsPerRow)
      ensures c == |GridSeats(rows, seatsPerRow)|
      ensures c < 0x1_0000_0000
    {
      MulMonotone(rows, 0xFFFF, seatsPerRow);
      MulMonotone(seatsPerRow, 26, 0xFFFF);
      rows * seatsPerRow
    }

    /** `is_seat_valid`: the seat is one of the seats counted by `Capacity()`. */
    predicate IsSeatValid(s: Seat)
      ensures seatsPerRow <= 26 ==> (IsSeatValid(s) <==> s in GridSeats(rows, seatsPerRow))
    {
      Fits(rows, seatsPerRow, s)
    }

    /** `is_booked`. On a flight that keeps its invariant, only valid seats are booked. */
    predicate IsBooked(s: Seat)
      reads this
      ensures IsBooked(s) && Valid() ==> IsSeatValid(s)
    {
      s in booked
    }

    /** `book_seat`: refuses a seat outside the geometry, then one already taken;
        otherwise adds exactly that seat. */
    method BookSeat(s: Seat) returns (r: Outcome<BookError>)
      requires Valid()
      modifies this
      ensures Valid()
      ensures r == (if !IsSeatValid(s) then Fail(InvalidSeat)
                    else if s in old(booked) then Fail(AlreadyBooked)
                    else Pass)
      ensures booked == if r.Pass? then old(booked) + {s} else old(booked)
    {
      if !IsSeatValid(s) {
        return Fail(InvalidSeat);
      }
      if s in booked {
        return Fail(AlreadyBooked);
      }
      booked := booked + {s};
      r := Pass;
    }

    /** `release_seat`: removes that seat only; a seat that is not booked is no error. */
    method ReleaseSeat(s: Seat)
      requires Valid()
      modifies this
      ensures Valid()
      ensures booked == old(booked) - {s}
    {
      booked := booked - {s};
    }
  }
}
