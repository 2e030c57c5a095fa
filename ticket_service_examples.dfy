/** Concrete purchases: the unit tests of the service; one adult with one
    child, one adult with two infants, and the 25/26-ticket boundary of the
    cap; and a client that drives the class. */
module TicketServiceExamples {
  import opened TicketDomain
  import opened TicketService
  import opened TicketServiceProperties

  /** Two adults on account 7: 50 is paid and 2 seats are reserved. */
  lemma ValidRequestPaysAndReserves()
    ensures Effects(Purchase(Some(7), [TicketTypeRequest(ADULT, 2)]))
            == [MakePayment(7, 50), ReserveSeat(7, 2)]
  {
  }

  /** Two children and no adult are rejected by the adult rule. */
  lemma NoAdultTicketsRejected()
    ensures Purchase(Some(7), [TicketTypeRequest(CHILD, 2)])
            == Rejected("Child and Infant tickets require at least one Adult ticket.")
  {
  }

  /** Twenty-six adults exceed the cap. */
  lemma TooManyTicketsExample()
    ensures Purchase(Some(7), [TicketTypeRequest(ADULT, 26)])
            == Rejected("Cannot purchase more than 25 tickets at a time.")
  {
  }

  /** Account id -1 is rejected before anything else is looked at. */
  lemma InvalidAccountExample()
    ensures Purchase(Some(-1), [TicketTypeRequest(ADULT, 1)]) == Rejected("Account ID is not valid.")
    ensures Purchase(None, [TicketTypeRequest(ADULT, 1)]) == Rejected("Account ID is not valid.")
  {
  }

  /** One adult and one child: 25 + 15 for two seats. */
  lemma AdultAndChildExample()
    ensures Purchase(Some(1), [TicketTypeRequest(ADULT, 1), TicketTypeRequest(CHILD, 1)])
            == Accepted(1, 40, 2)
  {
    var requests := [TicketTypeRequest(ADULT, 1), TicketTypeRequest(CHILD, 1)];
    assert requests[..1] == [TicketTypeRequest(ADULT, 1)];
    assert TotalsOf(requests) == Totals(2, 1, 1, 0, 40, 2);
  }

  /** One adult and two infants: infants are neither charged nor seated. */
  lemma AdultAndInfantsExample()
    ensures Purchase(Some(1), [TicketTypeRequest(ADULT, 1), TicketTypeRequest(INFANT, 2)])
            == Accepted(1, 25, 1)
  {
    var requests := [TicketTypeRequest(ADULT, 1), TicketTypeRequest(INFANT, 2)];
    assert requests[..1] == [TicketTypeRequest(ADULT, 1)];
    assert TotalsOf(requests) == Totals(3, 1, 0, 2, 25, 1);
  }

  /** The cap is inclusive: 25 tickets pass, 26 do not. */
  lemma CapBoundaryExample()
    ensures Purchase(Some(3), [TicketTypeRequest(ADULT, 20), TicketTypeRequest(INFANT, 5)])
            == Accepted(3, 500, 20)
    ensures Purchase(Some(3), [TicketTypeRequest(ADULT, 20), TicketTypeRequest(INFANT, 6)])
            == Rejected(TOO_MANY_TICKETS)
  {
    var ok := [TicketTypeRequest(ADULT, 20), TicketTypeRequest(INFANT, 5)];
    var over := [TicketTypeRequest(ADULT, 20), TicketTypeRequest(INFANT, 6)];
    assert ok[..1] == [TicketTypeRequest(ADULT, 20)];
    assert over[..1] == [TicketTypeRequest(ADULT, 20)];
    assert TotalsOf(ok) == Totals(25, 20, 0, 5, 500, 20);
    assert TotalsOf(over) == Totals(26, 20, 0, 6, 500, 20);
  }

  /** A client of the class: the same valid purchase made twice leads to two
      identical payment-then-reservation pairs, and a rejected one adds no
      call at all. */
  method RepeatedPurchase()
  {
    var service := new TicketServiceImpl();
    var twoAdults := [TicketTypeRequest(ADULT, 2)];
    ValidRequestPaysAndReserves();

    var r := service.PurchaseTickets(Some(7), twoAdults);
    assert r == Completed;
    r := service.PurchaseTickets(Some(7), twoAdults);
    assert r == Completed;
    assert service.calls == [MakePayment(7, 50), ReserveSeat(7, 2), MakePayment(7, 50), ReserveSeat(7, 2)];

    NoAdultTicketsRejected();
    r := service.PurchaseTickets(Some(7), [TicketTypeRequest(CHILD, 2)]);
    assert r == InvalidPurchase(ADULT_REQUIRED);
    assert |service.calls| == 4;
  }
}
