/** The three kinds of identifier of the booking domain. Each is `StrongId`
    instantiated with its own tag, so a `FlightId` can never be used, compared
    or stored where an `OrderId` or a `ReservationId` is expected. */
module Ids {
  import opened StrongIds

  datatype FlightTag = FlightTag
  datatype OrderTag = OrderTag
  datatype ReservationTag = ReservationTag

  type FlightId = StrongId<FlightTag>
  type OrderId = StrongId<OrderTag>
  type ReservationId = StrongId<ReservationTag>
}
