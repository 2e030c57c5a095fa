# Cinema ticket purchase service, modelled in Dafny

This project models `TicketServiceImpl.purchaseTickets`, the routine that
accepts or rejects a cinema ticket purchase. A purchase is an account id and
an ordered list of line items, each a ticket type (adult, child or infant) and
a quantity. The routine works as follows:

1. It rejects an absent or non-positive account id with "Account ID is not valid.".
2. It walks the line items once and keeps six running counters: all tickets,
   adults, children, infants, the amount to charge and the seats to reserve.
   An adult costs 25, a child costs 15, and an infant is free. Adults and
   children get a seat; infants do not.
3. It rejects more than 25 tickets in all, infants included, with
   "Cannot purchase more than 25 tickets at a time.".
4. It rejects children or infants bought without any adult with
   "Child and Infant tickets require at least one Adult ticket.".
5. Otherwise it charges the account the amount. Then it reserves the seats.

Files:

- `ticket_domain.dfy` (module `TicketDomain`) holds the value types. It has the
  three ticket types, the line item, the nullable account id (`Option<int>`,
  where `None` is a null `Long`) and the two collaborator calls.
- `ticket_service.dfy` (module `TicketService`) holds the routine. It has the
  constants and the counters. `Step` is one loop iteration. `TotalsOf` is the
  loop run over a whole list. `Count` is a separate per-type sum. `Purchase`
  is the pure decision and `Effects` gives the calls it leads to. The class
  `TicketServiceImpl` has the ghost field `calls`, which records the
  collaborator calls in order. Its method `PurchaseTickets` contains the
  six-counter loop and is proved to match `Purchase` and `Effects`.
- `ticket_service_properties.dfy` (module `TicketServiceProperties`) holds the
  lemmas about all inputs. The counters are the per-type sums. Each rule
  rejects exactly what it describes, in a fixed order. An accepted purchase
  pays and seats by the fixed prices. Reordering or splitting line items
  changes nothing.
- `ticket_service_examples.dfy` (module `TicketServiceExamples`) restates the
  four unit tests as lemmas, together with three more concrete purchases: one
  adult with one child, one adult with two infants, and 25 against 26 tickets
  at the cap. It also has a client method, `RepeatedPurchase`, that calls
  `PurchaseTickets` three times: the same valid purchase twice, then a
  rejected one. The general fact that calls carry no hidden state is the
  method's own postcondition, `calls == old(calls) + Effects(Purchase(...))`:
  each call appends what its arguments alone decide. The client shows it for
  one input.

The order of the rules shows in the preconditions of the rule lemmas.
`InvalidAccountRejected` puts no condition on the tickets.
`TooManyTicketsRejected` needs only a valid account, so it wins over the adult
rule when both fail. `AdultRequiredRejected` applies only once the first two
checks pass.

Quantities are unchecked integers, as in the source: the routine never
checks their sign. Only `ZeroTicketsAccepted` and its helper
`CountNonNegative` need non-negative quantities; both state it as a
precondition. The comment at `TicketServiceImplTest.java:57` mentions a price
of 20 per ticket. The asserted value, 50, matches the real price of 25.
`ValidRequestPaysAndReserves` states the asserted value.

## Model

| member | source | states |
|---|---|---|
| `TicketService.TotalsOf` | CinemaTicketService/cinema-tickets-java/src/main/java/uk/gov/dwp/uc/pairtest/TicketServiceImpl.java:45-72 | After any sequence of requests the six counters agree with each other. The total is adults + children + infants, the amount is 25·adults + 15·children, and the seats are adults + children. |
| `TicketService.Purchase` | CinemaTicketService/cinema-tickets-java/src/main/java/uk/gov/dwp/uc/pairtest/TicketServiceImpl.java:40-84 | A rejection always carries one of the three fixed messages. An accepted purchase always charges the caller's own account, and that id is positive. |
| `TicketService.TicketServiceImpl.PurchaseTickets` | CinemaTicketService/cinema-tickets-java/src/main/java/uk/gov/dwp/uc/pairtest/TicketServiceImpl.java:40-84 | The check, loop and guards return what `Purchase` decides. A rejection leaves the call log unchanged. Acceptance appends one payment and then one reservation, with the aggregated amount and seats. |
| `TicketService.TicketServiceImpl.constructor` | CinemaTicketService/cinema-tickets-java/src/main/java/uk/gov/dwp/uc/pairtest/TicketServiceImpl.java:27-30 | A new service has made no collaborator call. |
| `TicketServiceProperties.CountAppend` | CinemaTicketService/cinema-tickets-java/src/main/java/uk/gov/dwp/uc/pairtest/TicketServiceImpl.java:52-72 | The per-type quantity sum of two batches is the sum of their sums. |
| `TicketServiceProperties.TotalsAreCounts` | CinemaTicketService/cinema-tickets-java/src/main/java/uk/gov/dwp/uc/pairtest/TicketServiceImpl.java:45-72 | The loop's counters equal the per-type quantity sums, defined separately, priced at 25 per adult and 15 per child. Adults and children are seated; infants are counted but neither charged nor seated. |
| `TicketServiceProperties.TotalsAppend` | CinemaTicketService/cinema-tickets-java/src/main/java/uk/gov/dwp/uc/pairtest/TicketServiceImpl.java:52-72 | Running the loop over two batches in turn adds their counters field by field. |
| `TicketServiceProperties.CountPermutation` | CinemaTicketService/cinema-tickets-java/src/main/java/uk/gov/dwp/uc/pairtest/TicketServiceImpl.java:52-72 | Any permutation of the requests has the same per-type sums. |
| `TicketServiceProperties.TotalsPermutation` | CinemaTicketService/cinema-tickets-java/src/main/java/uk/gov/dwp/uc/pairtest/TicketServiceImpl.java:52-72 | Any permutation of the requests yields the same six counters. |
| `TicketServiceProperties.TotalsSplit` | CinemaTicketService/cinema-tickets-java/src/main/java/uk/gov/dwp/uc/pairtest/TicketServiceImpl.java:52-72 | Splitting one request of quantity m + n into two requests of the same type, with quantities m and n, yields the same counters. |
| `TicketServiceProperties.CountNonNegative` | CinemaTicketService/cinema-tickets-java/src/main/java/uk/gov/dwp/uc/pairtest/TicketServiceImpl.java:52-72 | If every quantity is non-negative, every per-type sum is non-negative. |
| `TicketServiceProperties.InvalidAccountRejected` | CinemaTicketService/cinema-tickets-java/src/main/java/uk/gov/dwp/uc/pairtest/TicketServiceImpl.java:41-43 | An absent or non-positive account id is rejected with "Account ID is not valid." whatever the requests are, and no call is made. |
| `TicketServiceProperties.TooManyTicketsRejected` | CinemaTicketService/cinema-tickets-java/src/main/java/uk/gov/dwp/uc/pairtest/TicketServiceImpl.java:74-76 | With a valid account, more than 25 tickets in all, infants included, are rejected with the cap message, even when the adult rule would also fail. No call is made. |
| `TicketServiceProperties.AdultRequiredRejected` | CinemaTicketService/cinema-tickets-java/src/main/java/uk/gov/dwp/uc/pairtest/TicketServiceImpl.java:78-80 | Some purchases have a valid account and at most 25 tickets, but no adult and some child or infant. These are rejected with the adult message, and no call is made. |
| `TicketServiceProperties.PurchaseAcceptedIff` | CinemaTicketService/cinema-tickets-java/src/main/java/uk/gov/dwp/uc/pairtest/TicketServiceImpl.java:41-83 | A purchase is accepted exactly when three things hold. The account is valid, there are at most 25 tickets, and the adult rule does not fail. |
| `TicketServiceProperties.AcceptedCharges` | CinemaTicketService/cinema-tickets-java/src/main/java/uk/gov/dwp/uc/pairtest/TicketServiceImpl.java:57-83 | An accepted purchase makes exactly two calls, both with the caller's account id. The first is a payment of 25·adults + 15·children. The second reserves adults + children seats. |
| `TicketServiceProperties.ZeroTicketsAccepted` | CinemaTicketService/cinema-tickets-java/src/main/java/uk/gov/dwp/uc/pairtest/TicketServiceImpl.java:74-83 | Take a valid account and non-negative quantities that sum to zero. The purchase passes every rule and pays 0 for 0 seats. |
| `TicketServiceProperties.MaxTicketsAccepted` | CinemaTicketService/cinema-tickets-java/src/main/java/uk/gov/dwp/uc/pairtest/TicketServiceImpl.java:74-76 | Exactly 25 tickets with at least one adult are accepted, so the cap is inclusive. |
| `TicketServiceProperties.PurchaseOrderIndependent` | CinemaTicketService/cinema-tickets-java/src/main/java/uk/gov/dwp/uc/pairtest/TicketServiceImpl.java:52-72 | The decision, and so the calls made, is the same for any ordering of the requests. |
| `TicketServiceProperties.PurchaseSplitIndependent` | CinemaTicketService/cinema-tickets-java/src/main/java/uk/gov/dwp/uc/pairtest/TicketServiceImpl.java:52-72 | The decision is the same whether a quantity comes in one request or in two requests of the same type. |
| `TicketServiceExamples.ValidRequestPaysAndReserves` | CinemaTicketService/cinema-tickets-java/src/test/java/uk/gov/dwp/uc/pairtest/TicketServiceImplTest.java:48-58 | Two adults on account 7 lead to a payment of 50 and then a reservation of 2 seats. |
| `TicketServiceExamples.NoAdultTicketsRejected` | CinemaTicketService/cinema-tickets-java/src/test/java/uk/gov/dwp/uc/pairtest/TicketServiceImplTest.java:67-77 | Two children without an adult are rejected with the adult message. |
| `TicketServiceExamples.TooManyTicketsExample` | CinemaTicketService/cinema-tickets-java/src/test/java/uk/gov/dwp/uc/pairtest/TicketServiceImplTest.java:84-94 | Twenty-six adults are rejected with the cap message. |
| `TicketServiceExamples.InvalidAccountExample` | CinemaTicketService/cinema-tickets-java/src/test/java/uk/gov/dwp/uc/pairtest/TicketServiceImplTest.java:102-112 | Account id -1, and a null account id, are rejected with the account message. |
| `TicketServiceExamples.AdultAndChildExample` | CinemaTicketService/cinema-tickets-java/src/main/java/uk/gov/dwp/uc/pairtest/TicketServiceImpl.java:57-66 | One adult and one child on account 1 pay 40 for 2 seats. |
| `TicketServiceExamples.AdultAndInfantsExample` | CinemaTicketService/cinema-tickets-java/src/main/java/uk/gov/dwp/uc/pairtest/TicketServiceImpl.java:67-70 | One adult and two infants on account 1 pay 25 for 1 seat. |
| `TicketServiceExamples.CapBoundaryExample` | CinemaTicketService/cinema-tickets-java/src/main/java/uk/gov/dwp/uc/pairtest/TicketServiceImpl.java:74-76 | Twenty adults plus five infants (25 tickets) are accepted. Twenty adults plus six infants (26 tickets) are rejected by the cap. |

## Left out

- The payment and seat-reservation services are foreign code. They appear only as events appended to the ghost log `calls`, and they are assumed to return normally. A failure inside them, which the source would let propagate with no rollback, is not modelled.
- The constructor's two collaborator parameters are not modelled. The collaborators are not objects in the model.
- Java `int` overflow in the counters and in `quantity * price` is not modelled. Integers are unbounded, so totals that would wrap around in Java do not wrap here.
- A null request array, null request elements and an unknown ticket type are not modelled. The three-case datatype makes the missing `default` branch unreachable.
- `TicketTypeRequest` and `InvalidPurchaseException` are not part of this model. The line item is a plain pair, and the exception is the `InvalidPurchase(message)` outcome.
