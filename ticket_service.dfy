/** `TicketServiceImpl`: the purchase entry point, its private helpers, and the two
    collaborators it calls, seen through the log of calls they receive. */
module TicketService {
  import opened TicketTypes
  import opened TicketRules

  class TicketServiceImpl {
    /** The unit prices the service charges. */
    const prices: TicketPrice

    /** Every call made so far on the payment gateway and the seat-reservation service, in order. */
    ghost var calls: seq<Call>

    constructor (prices: TicketPrice)
      ensures this.prices == prices && calls == []
    {
      this.prices := prices;
      calls := [];
    }

    /** The payment gateway's `makePayment`; only the call itself is observed. */
    method MakePayment(accountId: Int64, totalAmountToPay: int)
      modifies this`calls
      ensures calls == old(calls) + [Payment(accountId, totalAmountToPay)]
    {
      calls := calls + [Payment(accountId, totalAmountToPay)];
    }

    /** The seat-reservation service's `reserveSeat`; only the call itself is observed. */
    method ReserveSeat(accountId: Int64, totalSeatsToAllocate: int)
      modifies this`calls
      ensures calls == old(calls) + [SeatReservation(accountId, totalSeatsToAllocate)]
    {
      calls := calls + [SeatReservation(accountId, totalSeatsToAllocate)];
    }

    /** The entry point: account checks, then the request rules; collaborators are called
        only when every check passes. */
    method PurchaseTickets(accountId: Option<Int64>, ticketTypeRequests: seq<TicketTypeRequest>) returns (outcome: Outcome)
      modifies this`calls
      ensures outcome == Validate(accountId, ticketTypeRequests)
      ensures outcome.Rejected? ==> calls == old(calls)
      ensures outcome.Purchased? ==>
        accountId.Some? && calls == old(calls) + PurchaseCalls(prices, accountId.value, ticketTypeRequests)
    {
      if accountId.None? {
        outcome := Rejected(NullAccountId);
      } else if accountId.value <= 0 {
        outcome := Rejected(InvalidAccountId);
      } else {
        outcome := ValidatePurchase(accountId.value, ticketTypeRequests);
      }
    }

    method CalculateTotalTicketPrice(ticketTypeRequests: seq<TicketTypeRequest>) returns (totalAmount: int)
      requires TypesPresent(ticketTypeRequests)
      ensures totalAmount == TotalPrice(prices, ticketTypeRequests)
    {
      totalAmount := 0;
      for i := 0 to |ticketTypeRequests|
        invariant totalAmount == TotalPrice(prices, ticketTypeRequests[..i])
      {
        var ticketTypeRequest := ticketTypeRequests[i];
        totalAmount := totalAmount + GetTicketPrice(prices, ticketTypeRequest.ticketType.value) * ticketTypeRequest.noOfTickets;
        assert ticketTypeRequests[..i + 1][..i] == ticketTypeRequests[..i];
      }
      assert ticketTypeRequests[..|ticketTypeRequests|] == ticketTypeRequests;
    }

    method ValidatePurchase(accountId: Int64, ticketTypeRequests: seq<TicketTypeRequest>) returns (outcome: Outcome)
      modifies this`calls
      ensures outcome == ValidateRequests(ticketTypeRequests)
      ensures outcome.Rejected? ==> calls == old(calls)
      ensures outcome.Purchased? ==> calls == old(calls) + PurchaseCalls(prices, accountId, ticketTypeRequests)
    {
      if !AllValidTicketDetails(ticketTypeRequests) {
        return Rejected(InvalidTicketDetails);
      }
      if IsTicketWithinLimit(ticketTypeRequests) {
        var adultPresent := IsAdultPresent(ticketTypeRequests);
        if adultPresent {
          var totalAmount := CalculateTotalTicketPrice(ticketTypeRequests);
          MakePayment(accountId, totalAmount);
          ReserveCustomerSeats(accountId, ticketTypeRequests);
          outcome := Purchased;
        } else {
          outcome := Rejected(AtleastOneAdult);
        }
      } else {
        outcome := Rejected(LimitExceeded);
      }
    }

    /** One `reserveSeat` per request entry, each for the total ticket count: the guard
        compares the constant INFANT with itself, so it never filters anything out. */
    method ReserveCustomerSeats(accountId: Int64, ticketTypeRequests: seq<TicketTypeRequest>)
      modifies this`calls
      ensures calls == old(calls) + ReservationCalls(accountId, NumberOfTickets(ticketTypeRequests), |ticketTypeRequests|)
    {
      for i := 0 to |ticketTypeRequests|
        invariant calls == old(calls) + ReservationCalls(accountId, NumberOfTickets(ticketTypeRequests), i)
      {
        if !(Infant == Infant) == false {
          ReserveSeat(accountId, NumberOfTickets(ticketTypeRequests));
        }
        assert ReservationCalls(accountId, NumberOfTickets(ticketTypeRequests), i + 1)
          == ReservationCalls(accountId, NumberOfTickets(ticketTypeRequests), i)
             + [SeatReservation(accountId, NumberOfTickets(ticketTypeRequests))];
      }
    }

    method IsAdultPresent(ticketTypeRequests: seq<TicketTypeRequest>) returns (present: bool)
      requires TypesPresent(ticketTypeRequests)
      ensures present == HasAdult(ticketTypeRequests)
    {
      var count: nat := 0;
      for i := 0 to |ticketTypeRequests|
        invariant count > 0 <==> exists j :: 0 <= j < i && ticketTypeRequests[j].ticketType == Some(Adult)
      {
        if ticketTypeRequests[i].ticketType.value == Adult {
          count := count + 1;
        }
      }
      present := count > 0;
    }
  }
}
