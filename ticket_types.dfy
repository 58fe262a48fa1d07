/** The values the ticket service works on: ticket types and requests, the reasons a
    purchase is refused, the price table, and the calls made to the two collaborators. */
module TicketTypes {

  datatype Option<+T> = None | Some(value: T)

  /** Java `int` and `long`. */
  type Int32 = x: int | -0x8000_0000 <= x < 0x8000_0000
  type Int64 = x: int | -0x8000_0000_0000_0000 <= x < 0x8000_0000_0000_0000

  datatype TicketType = Adult | Child | Infant

  /** One line of a purchase. `ticketType` is None where the caller passed a null type. */
  datatype TicketTypeRequest = TicketTypeRequest(ticketType: Option<TicketType>, noOfTickets: Int32)

  /** The five reasons of `CustomErrorMessages`; the message texts are not modelled. */
  datatype ErrorMessage =
    | InvalidAccountId
    | NullAccountId
    | LimitExceeded
    | AtleastOneAdult
    | InvalidTicketDetails

  /** What a purchase call ends in: normal return, or an `InvalidPurchaseException` with its reason. */
  datatype Outcome = Purchased | Rejected(reason: ErrorMessage)

  /** The unit prices of `TicketPrice`, whose values are not fixed by this model. */
  datatype TicketPrice = TicketPrice(adultTicketPrice: Int32, childTicketPrice: Int32, infantTicketPrice: Int32)

  /** One call on a collaborator: `makePayment` on the payment gateway or
      `reserveSeat` on the seat-reservation service. */
  datatype Call =
    | Payment(accountId: Int64, totalAmountToPay: int)
    | SeatReservation(accountId: Int64, totalSeatsToAllocate: int)
}
