# Cinema ticket purchase rules, in Dafny

This project models `TicketServiceImpl`, the ticket-purchase service of the cinema-tickets
exercise. `purchaseTickets` takes an optional account id and a list of ticket-type requests
(ADULT, CHILD or INFANT, with a quantity). It runs a short-circuiting sequence of checks,
in this order:

1. a null account id is refused with `nullAccountId`;
2. an account id of 0 or less is refused with `invalidAccountId`;
3. any request with a quantity below 1 or a null type is refused with `invalidTicketDetails`;
4. a total of more than 20 tickets is refused with `limitExceeded`;
5. a purchase with no ADULT entry is refused with `atleastOneAdult`.

When every check passes, the service charges the account once, for the sum of unit price
times quantity over all entries. It then calls the seat-reservation service.

Files:

- `ticket_types.dfy` (module `TicketTypes`) holds the data: ticket types, requests (a null
  type is `None`), the five refusal reasons, the price table, and the collaborator calls.
- `ticket_rules.dfy` (module `TicketRules`) holds the pure rules as functions, with lemmas
  stating what they guarantee.
- `ticket_service.dfy` (module `TicketService`) holds class `TicketServiceImpl`, whose
  methods follow the source's loops and calls.
  - The two collaborators (payment gateway and seat reservation) are seen only through
    `calls`, a ghost log of the calls they receive, in order.
  - Every method except the two collaborator calls is proved against the functions of
    `TicketRules`. `MakePayment` and `ReserveSeat` are specified by the log entry they append.
- `ticket_count_overflow.dfy` (module `TicketCountOverflow`) models the 32-bit ticket count
  and amount exactly as the source computes them. It is the "as written" half of the finding below.

The unit prices come from a `TicketPrice` class that is not part of this model. They are
a `TicketPrice` value given to the constructor. The service and the rule lemmas assume
nothing about them, not even that the infant price is 0. Only two lemmas constrain them:
`AcceptedAmountFitsInInt` bounds each price, and the example `OverflowChargesWrappedAmount`
sets the adult price to 20.

The reservation loop's guard compares the constant `INFANT` with itself, so it is always
true. The model keeps that guard literally. As a result, `reserveSeat` is called once per
request entry, and each call passes the total ticket count of the whole purchase, infants
included. One reservation call for the whole purchase may have been the intent; the model
follows the code.

## Model

Several functions only compute a value. Each one is specified by the lemmas in its rows:
- `GetTicketPrice` (the `getTicketPrice` switch) and `TotalPrice`: `TotalPriceByType`,
  `TotalPriceAppend`, `TotalPricePermutation`.
- `NumberOfTickets` (`getNumberOfTickets`): `NumberOfTicketsByType`, `NumberOfTicketsBounds`.
- `IsTicketWithinLimit` (`isTicketExceeded`): `LimitBoundary`, `LimitExceededRule`.
- The 32-bit `NumberOfTicketsAsWritten` and `TotalPriceAsWritten`: `AsWrittenIsWrappedTotal`,
  `AsWrittenPriceIsWrappedTotal`.
- `ValidateRequestsAsWritten`: `OverflowBypassesLimit`, `CorrectedAgreesWithoutOverflow`.

| member | source | states |
|---|---|---|
| `TicketService.TicketServiceImpl.PurchaseTickets` | src/main/java/uk/gov/dwp/uc/pairtest/TicketServiceImpl.java:25-39 | The outcome is the one the validation pipeline `Validate` gives. A refused purchase leaves the call log unchanged. A successful one appends exactly the payment call and the reservation calls of `PurchaseCalls`. |
| `TicketService.TicketServiceImpl.ValidatePurchase` | src/main/java/uk/gov/dwp/uc/pairtest/TicketServiceImpl.java:66-84 | For a checked account id, the outcome is `ValidateRequests`: shape first, then the limit, then adult presence. On refusal no collaborator is called. On success the account is charged the total price once, and then the seats are reserved. |
| `TicketService.TicketServiceImpl.CalculateTotalTicketPrice` | src/main/java/uk/gov/dwp/uc/pairtest/TicketServiceImpl.java:56-64 | The loop's result equals `TotalPrice`, the sum of unit price times quantity over all entries. |
| `TicketService.TicketServiceImpl.ReserveCustomerSeats` | src/main/java/uk/gov/dwp/uc/pairtest/TicketServiceImpl.java:93-99 | Appends one `reserveSeat` call per request entry, infants included. Every call passes the account id and the total ticket count of the whole purchase. |
| `TicketService.TicketServiceImpl.IsAdultPresent` | src/main/java/uk/gov/dwp/uc/pairtest/TicketServiceImpl.java:101-109 | Returns true exactly when some entry has type ADULT. |
| `TicketService.TicketServiceImpl.MakePayment` | src/main/java/uk/gov/dwp/uc/pairtest/TicketServiceImpl.java:22 | The payment gateway's `makePayment`. It records one payment call with the account and amount and changes nothing else. |
| `TicketService.TicketServiceImpl.ReserveSeat` | src/main/java/uk/gov/dwp/uc/pairtest/TicketServiceImpl.java:23 | The reservation service's `reserveSeat`. It records one reservation call with the account and seat count and changes nothing else. |
| `TicketService.TicketServiceImpl.constructor` | src/main/java/uk/gov/dwp/uc/pairtest/TicketServiceImpl.java:15-23 | A new service has the given prices and has made no collaborator call. |
| `TicketRules.ValidateRequests` | src/main/java/uk/gov/dwp/uc/pairtest/TicketServiceImpl.java:66-84 | The request checks never refuse with an account reason. An accepted request list has at least one entry, and every entry has a type. The limit is checked on the exact total, which is the corrected rule of the finding below. |
| `TicketRules.Validate` | src/main/java/uk/gov/dwp/uc/pairtest/TicketServiceImpl.java:26-39 | The result is `nullAccountId` or `invalidAccountId` if and only if the account id is null or at most 0. The limit is checked on the exact total, which is the corrected rule of the finding below. |
| `TicketRules.LimitBoundary` | src/main/java/uk/gov/dwp/uc/pairtest/TicketServiceImpl.java:111-113 | The limit is inclusive: 20 tickets pass and 21 do not. 10 adults, 10 children and 1 infant exceed it, so infants count. |
| `TicketRules.NumberOfTicketsBounds` | src/main/java/uk/gov/dwp/uc/pairtest/TicketServiceImpl.java:115-117 | When every quantity is positive, the total is at least the number of entries and at least each entry's quantity. |
| `TicketRules.AllValidTicketDetails` | src/main/java/uk/gov/dwp/uc/pairtest/TicketServiceImpl.java:86-91 | The `allMatch` holds exactly when every entry has a quantity above 0 and a non-null type. |
| `TicketRules.NullAccountIdFirst` | src/main/java/uk/gov/dwp/uc/pairtest/TicketServiceImpl.java:28-31 | A null account id is refused with `nullAccountId`, whatever the requests. |
| `TicketRules.InvalidAccountIdBeforeRequests` | src/main/java/uk/gov/dwp/uc/pairtest/TicketServiceImpl.java:33-34 | An account id of 0 or less is refused with `invalidAccountId`, whatever the requests. |
| `TicketRules.InvalidTicketDetailsPrecedence` | src/main/java/uk/gov/dwp/uc/pairtest/TicketServiceImpl.java:66-68 | For a valid account, one entry with quantity below 1 or a null type, anywhere in the list, gives `invalidTicketDetails`. This holds whatever the total and whether or not an adult is present. |
| `TicketRules.LimitExceededRule` | src/main/java/uk/gov/dwp/uc/pairtest/TicketServiceImpl.java:70-83 | For a valid account and well-formed entries, the result is `limitExceeded` if and only if the total quantity is over 20. A total of exactly 20 passes. |
| `TicketRules.AtleastOneAdultRule` | src/main/java/uk/gov/dwp/uc/pairtest/TicketServiceImpl.java:72-78 | For a valid account and well-formed entries within the limit, the result is `atleastOneAdult` if and only if no entry is ADULT. This includes the empty list. |
| `TicketRules.PurchasedIff` | src/main/java/uk/gov/dwp/uc/pairtest/TicketServiceImpl.java:26-84 | A purchase succeeds if and only if all of these hold: the account id is present and positive, every entry is well formed, the total is at most 20, and some entry is ADULT. |
| `TicketRules.AcceptedPurchaseIsBounded` | src/main/java/uk/gov/dwp/uc/pairtest/TicketServiceImpl.java:111-117 | An accepted purchase has 1 to 20 entries. Each entry asks for 1 to 20 tickets, and the total is at most 20. |
| `TicketRules.TotalPriceAppend` | src/main/java/uk/gov/dwp/uc/pairtest/TicketServiceImpl.java:57-64 | The amount of a concatenation is the sum of the amounts of its two parts. |
| `TicketRules.TotalPricePermutation` | src/main/java/uk/gov/dwp/uc/pairtest/TicketServiceImpl.java:57-64 | Two request lists that are permutations of each other are charged the same amount. |
| `TicketRules.TotalPriceByType` | src/main/java/uk/gov/dwp/uc/pairtest/TicketServiceImpl.java:41-64 | The amount is the contract of `getTicketPrice` and `calculateTotalTicketPrice` together. It equals the adult price times the adult quantity, plus the same for children and for infants. |
| `TicketRules.NumberOfTicketsByType` | src/main/java/uk/gov/dwp/uc/pairtest/TicketServiceImpl.java:115-117 | The count of `getNumberOfTickets` is the adult quantity plus the child quantity plus the infant quantity, so infants are counted. |
| `TicketRules.PurchaseCallsProperties` | src/main/java/uk/gov/dwp/uc/pairtest/TicketServiceImpl.java:74-99 | A successful purchase makes exactly one payment call, at position 0, for the total price. It makes exactly one reservation call per entry, each for the adult, child and infant quantities added together. |
| `TicketRules.TestScenarios` | src/test/java/uk/gov/dwp/uc/pairtest/TicketServiceImplTest.java:18-102 | The behaviour cases of the unit tests give the refusal reason each test expects. |
| `TicketCountOverflow.Wrap32` | src/main/java/uk/gov/dwp/uc/pairtest/TicketServiceImpl.java:116 | Java `int` addition: the result is congruent to the exact sum modulo 2^32 and lies in the `int` range. A sum that already fits is unchanged. |
| `TicketCountOverflow.AsWrittenIsWrappedTotal` | src/main/java/uk/gov/dwp/uc/pairtest/TicketServiceImpl.java:115-117 | The source's step-by-step 32-bit ticket count (`NumberOfTicketsAsWritten`) equals the exact total wrapped once into the `int` range. |
| `TicketCountOverflow.OverflowBypassesLimit` | src/main/java/uk/gov/dwp/uc/pairtest/TicketServiceImpl.java:111-117 | Two ADULT entries of 2147483647 tickets wrap to a count of -2. The source as written accepts them, and the corrected rule refuses them with `limitExceeded`. |
| `TicketCountOverflow.CorrectedAgreesWithoutOverflow` | src/main/java/uk/gov/dwp/uc/pairtest/TicketServiceImpl.java:66-84 | When the exact total fits in an `int`, the source's checks (`ValidateRequestsAsWritten`) and the corrected checks (`ValidateRequests`) give the same outcome. |
| `TicketCountOverflow.AsWrittenPriceIsWrappedTotal` | src/main/java/uk/gov/dwp/uc/pairtest/TicketServiceImpl.java:57-64 | The source's 32-bit amount, with every product and sum wrapped (`TotalPriceAsWritten`), equals the exact amount wrapped once into the `int` range. |
| `TicketCountOverflow.AcceptedAmountFitsInInt` | src/main/java/uk/gov/dwp/uc/pairtest/TicketServiceImpl.java:57-74 | For an accepted purchase with every unit price at most 107374182 in magnitude, the exact amount fits in an `int`. The source then charges exactly `TotalPrice`. |
| `TicketCountOverflow.OverflowChargesWrappedAmount` | src/main/java/uk/gov/dwp/uc/pairtest/TicketServiceImpl.java:57-64 | With an adult price of 20, the two overflowing ADULT entries are charged -40 by the source, not the exact 85899345880. |

## Left out

- Java exceptions: each `InvalidPurchaseException` is a returned `Rejected(reason)`. The message strings of `CustomErrorMessages` are reduced to their five names.
- A null request element, or a null varargs array, makes the source throw a `NullPointerException`. Requests here are values, so the model has no such case.
- The collaborators' internals are not part of this model. `makePayment` and `reserveSeat` always return in the model and only record the call. A failure raised inside them, which the source lets propagate, is not modelled.
- The two collaborator fields become two methods of the service that write one shared log. That log is what lets the model state that the payment comes before the reservations.
- `TicketPrice` is not part of this model. Its three values are a parameter of the service.
- TicketService.TicketServiceImpl.CalculateTotalTicketPrice: the amount is the exact integer, while Java computes it in wrapping `int` arithmetic (`TotalPriceAsWritten`). A purchase that passes the exact 20-ticket check has at most 20 tickets. For such a purchase the two amounts agree whenever no unit price exceeds 107374182 (about 2^31 / 20) in magnitude, as `AcceptedAmountFitsInInt` proves. Above that bound the source charges the wrapped amount. The source also accepts the overflowing lists of the finding below, and for those it charges a wrapped amount even at small prices (`OverflowChargesWrappedAmount`).
- TicketRules.ValidateRequests: the limit is checked on the exact total (`NumberOfTickets`), not on the source's wrapped 32-bit sum. The as-written check is `TicketCountOverflow.ValidateRequestsAsWritten`, and `CorrectedAgreesWithoutOverflow` proves the two agree whenever the exact total fits in an `int`. `Validate` calls `ValidateRequests`, so the same holds for it.
- TicketService.TicketServiceImpl.ValidatePurchase: the 20-ticket limit is checked on the exact total, which is the corrected half of the finding below. The source checks the wrapped 32-bit sum. `CorrectedAgreesWithoutOverflow` proves the two give the same outcome whenever the exact total fits in an `int`.
- TicketService.TicketServiceImpl.PurchaseTickets: it calls `ValidatePurchase`, so its limit check is likewise on the exact total, not the source's wrapped 32-bit sum. The two agree whenever the exact total fits in an `int`.
- TicketService.TicketServiceImpl.ReserveCustomerSeats: the seat count passed is the exact total. In the source it is the 32-bit count, which differs only on the overflowing inputs of the finding below.
- The Mockito tests that only check that a mock received a call are not modelled. They state no behaviour.

## Findings

| source | as written | input that shows it | evidently intended | confidence | as-written member | corrected member |
|---|---|---|---|---|---|---|
| src/main/java/uk/gov/dwp/uc/pairtest/TicketServiceImpl.java:111-117 | The ticket count is summed in 32-bit `int` and wraps around. The limit check then compares the wrapped value with 20. | Account 6 with ADULT×2147483647 and ADULT×2147483647: the count wraps to -2, so the limit and adult checks pass. The amount is a wrapped 32-bit sum too: with an adult price of 20, each line 20×2147483647 wraps to -20, and `makePayment(6, -40)` is called. Then `reserveSeat(6, -2)` is called twice. | Refuse any purchase whose real total exceeds 20, with `limitExceeded`. | high; not executed | `TicketCountOverflow.OverflowBypassesLimit` | `TicketRules.AcceptedPurchaseIsBounded` |
