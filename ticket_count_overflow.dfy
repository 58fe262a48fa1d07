/** `getNumberOfTickets` and `calculateTotalTicketPrice` as the JVM evaluates them: the
    ticket count (`IntStream.sum`) and the amount (each price-times-quantity product and
    each addition) are computed in 32-bit arithmetic and wrap around silently. The rest of
    the model uses the unbounded totals (`TicketRules.NumberOfTickets`,
    `TicketRules.TotalPrice`); this module shows where the two part ways
    (`NumberOfTicketsAsWritten`, `TotalPriceAsWritten`). */
module TicketCountOverflow {
  import opened TicketTypes
  import opened TicketRules

  const TwoTo32 := 0x1_0000_0000
  const TwoTo31 := 0x8000_0000

  /** Java's `int` addition result: the Int32 value congruent to `x` modulo 2^32. */
  function Wrap32(x: int): (r: Int32)
    ensures (r - x) % TwoTo32 == 0
    ensures -TwoTo31 <= x < TwoTo31 ==> r == x
  {
    (x + TwoTo31) % TwoTo32 - TwoTo31
  }

  lemma WrapOfCongruent(x: int, y: int)
    requires (x - y) % TwoTo32 == 0
    ensures Wrap32(x) == Wrap32(y)
  {
    var k := (x - y) / TwoTo32;
    var q, r := (y + TwoTo31) / TwoTo32, (y + TwoTo31) % TwoTo32;
    assert x - y == k * TwoTo32;
    assert x + TwoTo31 == (q + k) * TwoTo32 + r;
    RemainderUnique(x + TwoTo31, q + k, r);
  }

  lemma RemainderUnique(a: int, q: int, r: int)
    requires a == q * TwoTo32 + r && 0 <= r < TwoTo32
    ensures a % TwoTo32 == r
  {
  }

  /** The running sum of `getNumberOfTickets`, each addition wrapped to 32 bits. */
  function NumberOfTicketsAsWritten(rs: seq<TicketTypeRequest>): Int32
  {
    if |rs| == 0 then 0
    else Wrap32(NumberOfTicketsAsWritten(rs[..|rs| - 1]) + rs[|rs| - 1].noOfTickets)
  }

  /** Wrapping at every step gives the true total wrapped once. */
  lemma {:induction false} AsWrittenIsWrappedTotal(rs: seq<TicketTypeRequest>)
    ensures NumberOfTicketsAsWritten(rs) == Wrap32(NumberOfTickets(rs))
  {
    if |rs| > 0 {
      var init, q := rs[..|rs| - 1], rs[|rs| - 1].noOfTickets;
      AsWrittenIsWrappedTotal(init);
      WrapOfCongruent(NumberOfTicketsAsWritten(init) + q, NumberOfTickets(init) + q);
    }
  }

  /** The running total of `calculateTotalTicketPrice` as the JVM evaluates it: each
      price-times-quantity product and each addition wrapped to 32 bits. */
  function TotalPriceAsWritten(prices: TicketPrice, rs: seq<TicketTypeRequest>): Int32
    requires TypesPresent(rs)
  {
    if |rs| == 0 then 0
    else Wrap32(TotalPriceAsWritten(prices, rs[..|rs| - 1]) + Wrap32(LineAmount(prices, rs[|rs| - 1])))
  }

  lemma SumOfMultiples(x: int, y: int)
    requires x % TwoTo32 == 0 && y % TwoTo32 == 0
    ensures (x + y) % TwoTo32 == 0
  {
    assert x == (x / TwoTo32) * TwoTo32 && y == (y / TwoTo32) * TwoTo32;
    assert x + y == (x / TwoTo32 + y / TwoTo32) * TwoTo32;
  }

  /** The amount charged by the source is the exact amount wrapped once into the `int` range. */
  lemma {:induction false} AsWrittenPriceIsWrappedTotal(prices: TicketPrice, rs: seq<TicketTypeRequest>)
    requires TypesPresent(rs)
    ensures TotalPriceAsWritten(prices, rs) == Wrap32(TotalPrice(prices, rs))
  {
    if |rs| > 0 {
      var init, line := rs[..|rs| - 1], LineAmount(prices, rs[|rs| - 1]);
      AsWrittenPriceIsWrappedTotal(prices, init);
      var x, y := TotalPriceAsWritten(prices, init) + Wrap32(line), TotalPrice(prices, init) + line;
      SumOfMultiples(TotalPriceAsWritten(prices, init) - TotalPrice(prices, init), Wrap32(line) - line);
      assert x - y == (TotalPriceAsWritten(prices, init) - TotalPrice(prices, init)) + (Wrap32(line) - line);
      WrapOfCongruent(x, y);
    }
  }

  /** The largest unit price, in magnitude, for which 20 tickets cannot overflow an `int`. */
  const MaxSafeUnitPrice := 107374182

  lemma ScaleBound(p: int, x: int)
    requires -MaxSafeUnitPrice <= p <= MaxSafeUnitPrice && x >= 0
    ensures -MaxSafeUnitPrice * x <= p * x <= MaxSafeUnitPrice * x
  {
  }

  /** For an accepted purchase, when no unit price exceeds 107374182 in magnitude, the
      exact amount fits in an `int`, so the source charges exactly `TotalPrice`. */
  lemma AcceptedAmountFitsInInt(prices: TicketPrice, rs: seq<TicketTypeRequest>)
    requires ValidateRequests(rs) == Purchased
    requires -MaxSafeUnitPrice <= prices.adultTicketPrice <= MaxSafeUnitPrice
    requires -MaxSafeUnitPrice <= prices.childTicketPrice <= MaxSafeUnitPrice
    requires -MaxSafeUnitPrice <= prices.infantTicketPrice <= MaxSafeUnitPrice
    ensures -TwoTo31 <= TotalPrice(prices, rs) < TwoTo31
    ensures TotalPriceAsWritten(prices, rs) == TotalPrice(prices, rs)
  {
    AcceptedPurchaseIsBounded(rs);
    TotalPriceByType(prices, rs);
    NumberOfTicketsByType(rs);
    var a, c, i := QuantityOf(rs, Adult), QuantityOf(rs, Child), QuantityOf(rs, Infant);
    QuantityOfNonNegative(rs, Adult);
    QuantityOfNonNegative(rs, Child);
    QuantityOfNonNegative(rs, Infant);
    ScaleBound(prices.adultTicketPrice, a);
    ScaleBound(prices.childTicketPrice, c);
    ScaleBound(prices.infantTicketPrice, i);
    assert MaxSafeUnitPrice * a + MaxSafeUnitPrice * c + MaxSafeUnitPrice * i == MaxSafeUnitPrice * (a + c + i);
    assert a + c + i <= 20;
    AsWrittenPriceIsWrappedTotal(prices, rs);
  }

  /** `validatePurchase` with the limit check on the wrapped total, as the source has it. */
  function ValidateRequestsAsWritten(rs: seq<TicketTypeRequest>): Outcome
  {
    if !AllValidTicketDetails(rs) then Rejected(InvalidTicketDetails)
    else if !(NumberOfTicketsAsWritten(rs) <= 20) then Rejected(LimitExceeded)
    else if !HasAdult(rs) then Rejected(AtleastOneAdult)
    else Purchased
  }

  /** Two ADULT entries of 2147483647 tickets each: the wrapped total is -2, so the source
      accepts a purchase of 4294967294 tickets, which the 20-ticket limit is meant to refuse. */
  lemma OverflowBypassesLimit()
    ensures var rs := [TicketTypeRequest(Some(Adult), 0x7fff_ffff), TicketTypeRequest(Some(Adult), 0x7fff_ffff)];
      && NumberOfTicketsAsWritten(rs) == -2
      && NumberOfTickets(rs) == 4294967294 > MaxTicketCount
      && ValidateRequestsAsWritten(rs) == Purchased
      && ValidateRequests(rs) == Rejected(LimitExceeded)
  {
  }

  /** What the source does with the same two entries when an adult ticket costs 20: each
      line 20 * 2147483647 wraps to -20, so `makePayment` is called with -40, and `reserveSeat`
      is called twice with the wrapped count -2. */
  lemma OverflowChargesWrappedAmount(prices: TicketPrice)
    requires prices.adultTicketPrice == 20
    ensures var rs := [TicketTypeRequest(Some(Adult), 0x7fff_ffff), TicketTypeRequest(Some(Adult), 0x7fff_ffff)];
      && TotalPriceAsWritten(prices, rs) == -40
      && TotalPrice(prices, rs) == 85899345880
  {
    var r := TicketTypeRequest(Some(Adult), 0x7fff_ffff);
    assert [r, r][..1] == [r] && [r][..0] == [];
    assert LineAmount(prices, r) == 42949672940;
    assert Wrap32(42949672940) == -20;
    assert TotalPrice(prices, [r]) == TotalPrice(prices, []) + LineAmount(prices, r);
    assert TotalPriceAsWritten(prices, [r]) == Wrap32(TotalPriceAsWritten(prices, []) + Wrap32(LineAmount(prices, r)));
    assert TotalPriceAsWritten(prices, [r, r]) == Wrap32(TotalPriceAsWritten(prices, [r]) + Wrap32(LineAmount(prices, r)));
    assert TotalPrice(prices, [r, r]) == TotalPrice(prices, [r]) + LineAmount(prices, r);
    assert TotalPriceAsWritten(prices, [r]) == -20 && TotalPrice(prices, [r]) == 42949672940;
    assert Wrap32(-40) == -40;
  }

  /** The corrected limit check differs from the source only when the true total does not
      fit in an `int`. */
  lemma CorrectedAgreesWithoutOverflow(rs: seq<TicketTypeRequest>)
    requires NumberOfTickets(rs) < TwoTo31
    ensures ValidateRequestsAsWritten(rs) == ValidateRequests(rs)
  {
    if AllValidTicketDetails(rs) {
      NumberOfTicketsBounds(rs);
      AsWrittenIsWrappedTotal(rs);
    }
  }
}
