/** The pure part of `TicketServiceImpl`: prices, ticket counts, the validation pipeline
    and the calls a successful purchase makes, with the properties they guarantee. */
module TicketRules {
  import opened TicketTypes

  /** `maxTicketCount`; the limit check writes the same literal 20. */
  const MaxTicketCount := 20

  // ---------------------------------------------------------------------------
  // Prices (`getTicketPrice`, `calculateTotalTicketPrice`)
  // ---------------------------------------------------------------------------

  function GetTicketPrice(prices: TicketPrice, t: TicketType): int
  {
    match t
    case Adult => prices.adultTicketPrice
    case Child => prices.childTicketPrice
    case Infant => prices.infantTicketPrice
  }

  /** Every request has a type: what pricing and the adult count need to avoid a null dereference. */
  predicate TypesPresent(rs: seq<TicketTypeRequest>)
  {
    forall i :: 0 <= i < |rs| ==> rs[i].ticketType.Some?
  }

  function LineAmount(prices: TicketPrice, r: TicketTypeRequest): int
    requires r.ticketType.Some?
  {
    GetTicketPrice(prices, r.ticketType.value) * r.noOfTickets
  }

  /** The amount charged: the running total of the loop in `calculateTotalTicketPrice`. */
  function TotalPrice(prices: TicketPrice, rs: seq<TicketTypeRequest>): int
    requires TypesPresent(rs)
  {
    if |rs| == 0 then 0
    else TotalPrice(prices, rs[..|rs| - 1]) + LineAmount(prices, rs[|rs| - 1])
  }

  /** Sum of the quantities requested of one ticket type. */
  function QuantityOf(rs: seq<TicketTypeRequest>, t: TicketType): int
  {
    if |rs| == 0 then 0
    else QuantityOf(rs[..|rs| - 1], t) + (if rs[|rs| - 1].ticketType == Some(t) then rs[|rs| - 1].noOfTickets else 0)
  }

  lemma {:induction false} TotalPriceAppend(prices: TicketPrice, a: seq<TicketTypeRequest>, b: seq<TicketTypeRequest>)
    requires TypesPresent(a) && TypesPresent(b)
    ensures TypesPresent(a + b)
    ensures TotalPrice(prices, a + b) == TotalPrice(prices, a) + TotalPrice(prices, b)
    decreases |b|
  {
    if |b| == 0 {
      assert a + b == a;
    } else {
      var b' := b[..|b| - 1];
      TotalPriceAppend(prices, a, b');
      assert (a + b)[..|a + b| - 1] == a + b';
    }
  }

  /** Taking one entry out of a list lowers the amount by that entry's line amount. */
  lemma RemoveEntry(prices: TicketPrice, ss: seq<TicketTypeRequest>, j: int)
    requires TypesPresent(ss) && 0 <= j < |ss|
    ensures TypesPresent(ss[..j] + ss[j + 1..])
    ensures multiset(ss[..j] + ss[j + 1..]) == multiset(ss) - multiset{ss[j]}
    ensures TotalPrice(prices, ss) == TotalPrice(prices, ss[..j] + ss[j + 1..]) + LineAmount(prices, ss[j])
  {
    var before, after := ss[..j], ss[j + 1..];
    assert ss == before + [ss[j]] + after;
    assert multiset(ss) == multiset(before) + multiset{ss[j]} + multiset(after);
    assert multiset(before + after) == multiset(before) + multiset(after);
    TotalPriceAppend(prices, before, after);
    TotalPriceAppend(prices, before + [ss[j]], after);
    TotalPriceAppend(prices, before, [ss[j]]);
    assert [ss[j]][..0] == [];
  }

  /** The amount does not depend on the order of the request entries. */
  lemma {:induction false} TotalPricePermutation(prices: TicketPrice, rs: seq<TicketTypeRequest>, ss: seq<TicketTypeRequest>)
    requires TypesPresent(rs) && TypesPresent(ss)
    requires multiset(rs) == multiset(ss)
    ensures TotalPrice(prices, rs) == TotalPrice(prices, ss)
    decreases |rs|
  {
    if |rs| == 0 {
      assert |ss| == |multiset(ss)| == 0;
    } else {
      var last, init := rs[|rs| - 1], rs[..|rs| - 1];
      assert rs == init + [last];
      assert multiset(init) == multiset(rs) - multiset{last};
      assert last in multiset(ss);
      var j :| 0 <= j < |ss| && ss[j] == last;
      RemoveEntry(prices, ss, j);
      TotalPricePermutation(prices, init, ss[..j] + ss[j + 1..]);
    }
  }

  /** The amount is the sum, over the three ticket types, of unit price times quantity of that type. */
  lemma {:induction false} TotalPriceByType(prices: TicketPrice, rs: seq<TicketTypeRequest>)
    requires TypesPresent(rs)
    ensures TotalPrice(prices, rs) ==
      prices.adultTicketPrice * QuantityOf(rs, Adult)
      + prices.childTicketPrice * QuantityOf(rs, Child)
      + prices.infantTicketPrice * QuantityOf(rs, Infant)
  {
    if |rs| > 0 {
      var init, last := rs[..|rs| - 1], rs[|rs| - 1];
      TotalPriceByType(prices, init);
      var t, q := last.ticketType.value, last.noOfTickets;
      var a, c, i := QuantityOf(init, Adult), QuantityOf(init, Child), QuantityOf(init, Infant);
      var pa, pc, pi := prices.adultTicketPrice, prices.childTicketPrice, prices.infantTicketPrice;
      assert TotalPrice(prices, rs) == pa * a + pc * c + pi * i + GetTicketPrice(prices, t) * q;
      match t
      case Adult =>
        assert QuantityOf(rs, Adult) == a + q && QuantityOf(rs, Child) == c && QuantityOf(rs, Infant) == i;
        Distribute(pa, a, q);
      case Child =>
        assert QuantityOf(rs, Adult) == a && QuantityOf(rs, Child) == c + q && QuantityOf(rs, Infant) == i;
        Distribute(pc, c, q);
      case Infant =>
        assert QuantityOf(rs, Adult) == a && QuantityOf(rs, Child) == c && QuantityOf(rs, Infant) == i + q;
        Distribute(pi, i, q);
    }
  }

  lemma Distribute(p: int, x: int, y: int)
    ensures p * (x + y) == p * x + p * y
  {
  }

  // ---------------------------------------------------------------------------
  // Ticket count (`getNumberOfTickets`, `isTicketExceeded`)
  // ---------------------------------------------------------------------------

  /** Sum of all quantities, every ticket type included; unbounded (see TicketCountOverflow). */
  function NumberOfTickets(rs: seq<TicketTypeRequest>): int
  {
    if |rs| == 0 then 0 else NumberOfTickets(rs[..|rs| - 1]) + rs[|rs| - 1].noOfTickets
  }

  /** True when the purchase is NOT over the limit (the source names it `isTicketExceeded`). */
  predicate IsTicketWithinLimit(rs: seq<TicketTypeRequest>)
  {
    NumberOfTickets(rs) <= 20
  }

  /** The limit is inclusive: 20 tickets pass, 21 do not, and infants count toward it. */
  lemma LimitBoundary()
    ensures IsTicketWithinLimit([TicketTypeRequest(Some(Adult), 20)])
    ensures !IsTicketWithinLimit([TicketTypeRequest(Some(Adult), 21)])
    ensures !IsTicketWithinLimit([TicketTypeRequest(Some(Adult), 10), TicketTypeRequest(Some(Child), 10),
                                  TicketTypeRequest(Some(Infant), 1)])
  {
    var a, c, i := TicketTypeRequest(Some(Adult), 10), TicketTypeRequest(Some(Child), 10), TicketTypeRequest(Some(Infant), 1);
    assert [a, c, i][..2] == [a, c] && [a, c][..1] == [a] && [a][..0] == [];
    assert NumberOfTickets([a]) == 10;
    assert NumberOfTickets([a, c]) == 20;
  }

  /** With positive quantities, each per-type quantity is at least 0. */
  lemma {:induction false} QuantityOfNonNegative(rs: seq<TicketTypeRequest>, t: TicketType)
    requires forall i :: 0 <= i < |rs| ==> rs[i].noOfTickets > 0
    ensures QuantityOf(rs, t) >= 0
  {
    if |rs| > 0 {
      QuantityOfNonNegative(rs[..|rs| - 1], t);
    }
  }

  /** Infants are counted like every other ticket. */
  lemma {:induction false} NumberOfTicketsByType(rs: seq<TicketTypeRequest>)
    requires TypesPresent(rs)
    ensures NumberOfTickets(rs) == QuantityOf(rs, Adult) + QuantityOf(rs, Child) + QuantityOf(rs, Infant)
  {
    if |rs| > 0 {
      var init, last := rs[..|rs| - 1], rs[|rs| - 1];
      assert TypesPresent(init);
      NumberOfTicketsByType(init);
      assert last.ticketType.Some?;
      match last.ticketType.value
      case Adult =>
      case Child =>
      case Infant =>
    }
  }

  /** With positive quantities, each entry's quantity and the number of entries are at most the total. */
  lemma {:induction false} NumberOfTicketsBounds(rs: seq<TicketTypeRequest>)
    requires forall i :: 0 <= i < |rs| ==> rs[i].noOfTickets > 0
    ensures NumberOfTickets(rs) >= |rs|
    ensures forall i :: 0 <= i < |rs| ==> rs[i].noOfTickets <= NumberOfTickets(rs)
  {
    if |rs| > 0 {
      NumberOfTicketsBounds(rs[..|rs| - 1]);
      assert forall i :: 0 <= i < |rs| - 1 ==> rs[..|rs| - 1][i] == rs[i];
    }
  }

  // ---------------------------------------------------------------------------
  // Request shape (`checkNullObjects`) and adult presence (`isAdultPresent`)
  // ---------------------------------------------------------------------------

  predicate IsValidTicketDetails(r: TicketTypeRequest)
  {
    r.noOfTickets > 0 && r.ticketType.Some?
  }

  /** The `allMatch` of `checkNullObjects`, element by element. */
  predicate AllValidTicketDetails(rs: seq<TicketTypeRequest>): (ok: bool)
    ensures ok <==> forall i :: 0 <= i < |rs| ==> IsValidTicketDetails(rs[i])
  {
    |rs| == 0 || (IsValidTicketDetails(rs[0]) && AllValidTicketDetails(rs[1..]))
  }

  predicate HasAdult(rs: seq<TicketTypeRequest>)
  {
    exists i :: 0 <= i < |rs| && rs[i].ticketType == Some(Adult)
  }

  // ---------------------------------------------------------------------------
  // The validation pipeline (`purchaseTickets`, `validatePurchase`)
  // ---------------------------------------------------------------------------

  /** `validatePurchase`: shape, then limit, then adult presence. */
  function ValidateRequests(rs: seq<TicketTypeRequest>): (o: Outcome)
    ensures o.Rejected? ==> o.reason != NullAccountId && o.reason != InvalidAccountId
    ensures o == Purchased ==> TypesPresent(rs) && |rs| >= 1
  {
    if !AllValidTicketDetails(rs) then Rejected(InvalidTicketDetails)
    else if !IsTicketWithinLimit(rs) then Rejected(LimitExceeded)
    else if !HasAdult(rs) then Rejected(AtleastOneAdult)
    else Purchased
  }

  /** `purchaseTickets`: the account checks, then `validatePurchase`. */
  function Validate(accountId: Option<Int64>, rs: seq<TicketTypeRequest>): (o: Outcome)
    ensures (o == Rejected(NullAccountId) || o == Rejected(InvalidAccountId))
      <==> accountId.None? || accountId.value <= 0
  {
    if accountId.None? then Rejected(NullAccountId)
    else if accountId.value <= 0 then Rejected(InvalidAccountId)
    else ValidateRequests(rs)
  }

  /** A missing account id is refused first, whatever the requests. */
  lemma NullAccountIdFirst(rs: seq<TicketTypeRequest>)
    ensures Validate(None, rs) == Rejected(NullAccountId)
  {
  }

  /** A present account id of 0 or less is refused before any request is looked at. */
  lemma InvalidAccountIdBeforeRequests(accountId: Int64, rs: seq<TicketTypeRequest>)
    requires accountId <= 0
    ensures Validate(Some(accountId), rs) == Rejected(InvalidAccountId)
  {
  }

  /** One malformed entry anywhere refuses the purchase with `invalidTicketDetails`,
      whatever the total and whether or not an adult is present. */
  lemma InvalidTicketDetailsPrecedence(accountId: Int64, rs: seq<TicketTypeRequest>, k: int)
    requires accountId > 0
    requires 0 <= k < |rs|
    requires rs[k].noOfTickets < 1 || rs[k].ticketType.None?
    ensures Validate(Some(accountId), rs) == Rejected(InvalidTicketDetails)
  {
  }

  /** Well-formed requests totalling more than 20 tickets are refused with `limitExceeded`,
      adult or not; exactly 20 is not over the limit. */
  lemma LimitExceededRule(accountId: Int64, rs: seq<TicketTypeRequest>)
    requires accountId > 0
    requires forall i :: 0 <= i < |rs| ==> IsValidTicketDetails(rs[i])
    ensures NumberOfTickets(rs) > MaxTicketCount <==> Validate(Some(accountId), rs) == Rejected(LimitExceeded)
  {
  }

  /** Well-formed requests within the limit with no ADULT entry, the empty list included,
      are refused with `atleastOneAdult`. */
  lemma AtleastOneAdultRule(accountId: Int64, rs: seq<TicketTypeRequest>)
    requires accountId > 0
    requires forall i :: 0 <= i < |rs| ==> IsValidTicketDetails(rs[i])
    requires NumberOfTickets(rs) <= MaxTicketCount
    ensures !HasAdult(rs) <==> Validate(Some(accountId), rs) == Rejected(AtleastOneAdult)
  {
  }

  /** A purchase goes through exactly when every check holds. */
  lemma PurchasedIff(accountId: Option<Int64>, rs: seq<TicketTypeRequest>)
    ensures Validate(accountId, rs) == Purchased <==>
      && accountId.Some? && accountId.value > 0
      && (forall i :: 0 <= i < |rs| ==> IsValidTicketDetails(rs[i]))
      && NumberOfTickets(rs) <= MaxTicketCount
      && HasAdult(rs)
  {
  }

  /** What an accepted purchase guarantees: between 1 and 20 entries, each asking for 1 to 20
      tickets, at most 20 tickets in all. */
  lemma {:induction false} AcceptedPurchaseIsBounded(rs: seq<TicketTypeRequest>)
    requires ValidateRequests(rs) == Purchased
    ensures TypesPresent(rs)
    ensures 1 <= |rs| <= NumberOfTickets(rs) <= MaxTicketCount
    ensures forall i :: 0 <= i < |rs| ==> 1 <= rs[i].noOfTickets <= MaxTicketCount
  {
    NumberOfTicketsBounds(rs);
  }

  /** The examples of the unit tests: a null account, account ids 0 and -2, 21 adults,
      a zero quantity, a null type, and child/infant-only purchases. */
  lemma TestScenarios()
    ensures Validate(None, [TicketTypeRequest(Some(Adult), 11)]) == Rejected(NullAccountId)
    ensures Validate(Some(0), [TicketTypeRequest(Some(Adult), 11)]) == Rejected(InvalidAccountId)
    ensures Validate(Some(-2), [TicketTypeRequest(Some(Adult), 11)]) == Rejected(InvalidAccountId)
    ensures Validate(Some(6), [TicketTypeRequest(Some(Adult), 21)]) == Rejected(LimitExceeded)
    ensures Validate(Some(6), [TicketTypeRequest(Some(Child), 1), TicketTypeRequest(Some(Infant), 1)])
      == Rejected(AtleastOneAdult)
    ensures Validate(Some(6), [TicketTypeRequest(Some(Child), 1)]) == Rejected(AtleastOneAdult)
    ensures Validate(Some(6), [TicketTypeRequest(Some(Infant), 1)]) == Rejected(AtleastOneAdult)
    ensures Validate(Some(6), [TicketTypeRequest(None, 1)]) == Rejected(InvalidTicketDetails)
    ensures Validate(Some(6), [TicketTypeRequest(Some(Adult), 0)]) == Rejected(InvalidTicketDetails)
  {
  }

  // ---------------------------------------------------------------------------
  // Calls on the collaborators
  // ---------------------------------------------------------------------------

  /** `n` calls of `reserveSeat`, all with the same account and seat count. */
  function ReservationCalls(accountId: Int64, seats: int, n: nat): seq<Call>
  {
    seq(n, _ => SeatReservation(accountId, seats))
  }

  /** The calls a successful purchase makes: one payment of the total price, then one
      reservation of the total ticket count per request entry. */
  function PurchaseCalls(prices: TicketPrice, accountId: Int64, rs: seq<TicketTypeRequest>): seq<Call>
    requires TypesPresent(rs)
  {
    [Payment(accountId, TotalPrice(prices, rs))] + ReservationCalls(accountId, NumberOfTickets(rs), |rs|)
  }

  function PaymentCount(log: seq<Call>): nat
  {
    if |log| == 0 then 0 else PaymentCount(log[..|log| - 1]) + (if log[|log| - 1].Payment? then 1 else 0)
  }

  function ReservationCount(log: seq<Call>): nat
  {
    if |log| == 0 then 0 else ReservationCount(log[..|log| - 1]) + (if log[|log| - 1].SeatReservation? then 1 else 0)
  }

  lemma {:induction false} ReservationCallsCounts(accountId: Int64, seats: int, n: nat)
    ensures PaymentCount(ReservationCalls(accountId, seats, n)) == 0
    ensures ReservationCount(ReservationCalls(accountId, seats, n)) == n
  {
    if n > 0 {
      ReservationCallsCounts(accountId, seats, n - 1);
      assert ReservationCalls(accountId, seats, n)[..n - 1] == ReservationCalls(accountId, seats, n - 1);
    }
  }

  lemma {:induction false} CountsOfAppend(a: seq<Call>, b: seq<Call>)
    ensures PaymentCount(a + b) == PaymentCount(a) + PaymentCount(b)
    ensures ReservationCount(a + b) == ReservationCount(a) + ReservationCount(b)
    decreases |b|
  {
    if |b| == 0 {
      assert a + b == a;
    } else {
      CountsOfAppend(a, b[..|b| - 1]);
      assert (a + b)[..|a + b| - 1] == a + b[..|b| - 1];
    }
  }

  /** A successful purchase pays once, for the total price, and then calls `reserveSeat` once
      per request entry, each time for the total ticket count, infants included. */
  lemma PurchaseCallsProperties(prices: TicketPrice, accountId: Int64, rs: seq<TicketTypeRequest>)
    requires TypesPresent(rs)
    ensures var log := PurchaseCalls(prices, accountId, rs);
      && PaymentCount(log) == 1
      && ReservationCount(log) == |rs|
      && (forall i :: 0 <= i < |log| && log[i].Payment? ==>
            i == 0 && log[i] == Payment(accountId, TotalPrice(prices, rs)))
      && (forall i :: 0 <= i < |log| && log[i].SeatReservation? ==>
            log[i] == SeatReservation(accountId, QuantityOf(rs, Adult) + QuantityOf(rs, Child) + QuantityOf(rs, Infant)))
  {
    var pay := [Payment(accountId, TotalPrice(prices, rs))];
    var reservations := ReservationCalls(accountId, NumberOfTickets(rs), |rs|);
    ReservationCallsCounts(accountId, NumberOfTickets(rs), |rs|);
    CountsOfAppend(pay, reservations);
    assert PaymentCount(pay) == 1 by { assert pay[..0] == []; }
    assert ReservationCount(pay) == 0 by { assert pay[..0] == []; }
    NumberOfTicketsByType(rs);
  }
}
