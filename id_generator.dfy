/** Issues flight, reservation and order ids from three independent counters
    that start at 1. Each call is one indivisible `fetch_add(1)`: it returns the
    counter's value and increments it. */
module IdGenerator {
  import opened StrongIds
  import opened Ids

  class AtomicIdGenerator {
    var flightCounter: nat
    var reservationCounter: nat
    var orderCounter: nat

    /** The values handed out so far, per kind. */
    ghost var issuedFlightIds: set<nat>
    ghost var issuedReservationIds: set<nat>
    ghost var issuedOrderIds: set<nat>

    /** Every value issued lies between 1 and the counter, which is at least 1. */
    ghost predicate Valid()
      reads this
    {
      && 1 <= flightCounter && 1 <= reservationCounter && 1 <= orderCounter
      && (forall v | v in issuedFlightIds :: 1 <= v < flightCounter)
      && (forall v | v in issuedReservationIds :: 1 <= v < reservationCounter)
      && (forall v | v in issuedOrderIds :: 1 <= v < orderCounter)
    }

    constructor ()
      ensures Valid()
      ensures flightCounter == 1 && reservationCounter == 1 && orderCounter == 1
      ensures issuedFlightIds == {} && issuedReservationIds == {} && issuedOrderIds == {}
    {
      flightCounter, reservationCounter, orderCounter := 1, 1, 1;
      issuedFlightIds, issuedReservationIds, issuedOrderIds := {}, {}, {};
    }

    method NextFlightId() returns (id: FlightId)
      requires Valid()
      modifies this
      ensures Valid()
      ensures id.value == old(flightCounter) && flightCounter == old(flightCounter) + 1
      ensures 1 <= id.value && id.value !in old(issuedFlightIds)
      ensures issuedFlightIds == old(issuedFlightIds) + {id.value}
      ensures reservationCounter == old(reservationCounter) && orderCounter == old(orderCounter)
      ensures issuedReservationIds == old(issuedReservationIds) && issuedOrderIds == old(issuedOrderIds)
    {
      id := StrongId(flightCounter);
      flightCounter := flightCounter + 1;
      issuedFlightIds := issuedFlightIds + {id.value};
    }

    method NextReservationId() returns (id: ReservationId)
      requires Valid()
      modifies this
      ensures Valid()
      ensures id.value == old(reservationCounter) && reservationCounter == old(reservationCounter) + 1
      ensures 1 <= id.value && id.value !in old(issuedReservationIds)
      ensures issuedReservationIds == old(issuedReservationIds) + {id.value}
      ensures flightCounter == old(flightCounter) && orderCounter == old(orderCounter)
      ensures issuedFlightIds == old(issuedFlightIds) && issuedOrderIds == old(issuedOrderIds)
    {
      id := StrongId(reservationCounter);
      reservationCounter := reservationCounter + 1;
      issuedReservationIds := issuedReservationIds + {id.value};
    }

    method NextOrderId() returns (id: OrderId)
      requires Valid()
      modifies this
      ensures Valid()
      ensures id.value == old(orderCounter) && orderCounter == old(orderCounter) + 1
      ensures 1 <= id.value && id.value !in old(issuedOrderIds)
      ensures issuedOrderIds == old(issuedOrderIds) + {id.value}
      ensures flightCounter == old(flightCounter) && reservationCounter == old(reservationCounter)
      ensures issuedFlightIds == old(issuedFlightIds) && issuedReservationIds == old(issuedReservationIds)
    {
      id := StrongId(orderCounter);
      orderCounter := orderCounter + 1;
      issuedOrderIds := issuedOrderIds + {id.value};
    }
  }

  /** A fresh generator: the first id of each kind is 1, a second call of one kind
      gives a strictly larger value, and calls of one kind do not move the others. */
  method FirstIds() returns (f1: FlightId, f2: FlightId, r1: ReservationId, o1: OrderId, f3: FlightId)
    ensures f1.value == 1 && f2.value == 2 && f3.value == 3
    ensures r1.value == 1 && o1.value == 1
    ensures Before(f1, f2) && Before(f2, f3)
  {
    var ids := new AtomicIdGenerator();
    f1 := ids.NextFlightId();
    f2 := ids.NextFlightId();
    r1 := ids.NextReservationId();
    o1 := ids.NextOrderId();
    f3 := ids.NextFlightId();
  }
}
