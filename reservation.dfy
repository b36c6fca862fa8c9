/** A reservation: the immutable record that an order holds a seat on a flight. */
module Reservations {
  import opened Common
  import opened Ids
  import opened Seats

  datatype Reservation = Reservation(
    id: ReservationId,
    orderId: OrderId,
    flightId: FlightId,
    seat: Seat,
    createdAt: Timestamp)
}
