/** The purchase routine of the cinema ticket service: validation of the
    account, aggregation of the line items into six running counters, the two
    business rules on the totals, and the two ordered collaborator calls. */
module TicketService {
  import opened TicketDomain

  const MAX_TICKETS_ALLOWED: int := 25
  const ADULT_TICKET_PRICE: int := 25
  const CHILD_TICKET_PRICE: int := 15

  const INVALID_ACCOUNT: string := "Account ID is not valid."
  const TOO_MANY_TICKETS: string := "Cannot purchase more than 25 tickets at a time."
  const ADULT_REQUIRED: string := "Child and Infant tickets require at least one Adult ticket."

  /** The six counters the purchase loop keeps. */
  datatype Totals = Totals(total: int, adult: int, child: int, infant: int, amount: int, seats: int)

  /** The totals that per-type ticket counts determine: every ticket is
      counted, adults and children are priced and seated, infants are neither. */
  function Priced(adult: int, child: int, infant: int): (t: Totals)
  {
    Totals(adult + child + infant, adult, child, infant,
           adult * ADULT_TICKET_PRICE + child * CHILD_TICKET_PRICE, adult + child)
  }

  /** The counters agree with one another as `Priced` says they should. */
  predicate Consistent(t: Totals)
  {
    t == Priced(t.adult, t.child, t.infant)
  }

  /** One iteration of the purchase loop: the total always grows by the
      quantity, then the type decides which other counters grow. */
  function Step(t: Totals, request: TicketTypeRequest): (t': Totals)
  {
    var n := request.noOfTickets;
    match request.ticketType
    case ADULT => t.(total := t.total + n, adult := t.adult + n,
                     amount := t.amount + n * ADULT_TICKET_PRICE, seats := t.seats + n)
    case CHILD => t.(total := t.total + n, child := t.child + n,
                     amount := t.amount + n * CHILD_TICKET_PRICE, seats := t.seats + n)
    case INFANT => t.(total := t.total + n, infant := t.infant + n)
  }

  /** The counters after the loop has visited every request, in order,
      starting from all zeros. */
  function TotalsOf(requests: seq<TicketTypeRequest>): (t: Totals)
    ensures Consistent(t)
  {
    if requests == [] then Totals(0, 0, 0, 0, 0, 0)
    else Step(TotalsOf(requests[..|requests| - 1]), requests[|requests| - 1])
  }

  /** The quantity a single request contributes to the count of `ty`. */
  function Contribution(request: TicketTypeRequest, ty: TicketType): (n: int)
  {
    if request.ticketType == ty then request.noOfTickets else 0
  }

  /** The sum of the quantities of all requests of type `ty`, defined
      independently of the loop, from the front of the sequence. */
  function Count(requests: seq<TicketTypeRequest>, ty: TicketType): (n: int)
  {
    if requests == [] then 0
    else Contribution(requests[0], ty) + Count(requests[1..], ty)
  }

  /** A non-null, strictly positive account id. */
  predicate ValidAccount(accountId: Option<int>)
  {
    accountId.Some? && accountId.value > 0
  }

  /** What a purchase comes to: rejected with a reason, or accepted with the
      account to charge, the amount and the number of seats. */
  datatype Decision =
    | Rejected(reason: string)
    | Accepted(account: int, amount: int, seats: int)

  /** The decision the purchase routine takes. The rules are tried in a fixed
      order and the first that fails gives the reason. */
  function Purchase(accountId: Option<int>, requests: seq<TicketTypeRequest>): (d: Decision)
    ensures d.Rejected? ==> d.reason in {INVALID_ACCOUNT, TOO_MANY_TICKETS, ADULT_REQUIRED}
    ensures d.Accepted? ==> accountId == Some(d.account) && d.account > 0
  {
    if !ValidAccount(accountId) then Rejected(INVALID_ACCOUNT)
    else
      var t := TotalsOf(requests);
      if t.total > MAX_TICKETS_ALLOWED then Rejected(TOO_MANY_TICKETS)
      else if t.adult == 0 && (t.child > 0 || t.infant > 0) then Rejected(ADULT_REQUIRED)
      else Accepted(accountId.value, t.amount, t.seats)
  }

  /** The collaborator calls a decision leads to: none on rejection; on
      acceptance, payment first and seat reservation second. */
  function Effects(d: Decision): (calls: seq<Call>)
  {
    match d
    case Rejected(_) => []
    case Accepted(account, amount, seats) => [MakePayment(account, amount), ReserveSeat(account, seats)]
  }

  /** What the caller observes: normal return, or the exception and its message. */
  datatype Outcome = Completed | InvalidPurchase(message: string)

  function OutcomeOf(d: Decision): (o: Outcome)
  {
    match d
    case Rejected(reason) => InvalidPurchase(reason)
    case Accepted(_, _, _) => Completed
  }

  /** The ticket service. Its collaborators are not modelled as objects; the
      ghost field `calls` records, in order, every call made on them. */
  class TicketServiceImpl {
    ghost var calls: seq<Call>

    constructor ()
      ensures calls == []
    {
      calls := [];
    }

    method PurchaseTickets(accountId: Option<int>, ticketTypeRequests: seq<TicketTypeRequest>)
      returns (r: Outcome)
      modifies this
      ensures r == OutcomeOf(Purchase(accountId, ticketTypeRequests))
      ensures r.InvalidPurchase? ==> calls == old(calls)
      ensures calls == old(calls) + Effects(Purchase(accountId, ticketTypeRequests))
    {
      if accountId.None? || accountId.value <= 0 {
        return InvalidPurchase(INVALID_ACCOUNT);
      }

      var totalTickets, adultTickets, childTickets, infantTickets := 0, 0, 0, 0;
      var totalAmount, totalSeatsToReserve := 0, 0;

      for i := 0 to |ticketTypeRequests|
        invariant Totals(totalTickets, adultTickets, childTickets, infantTickets, totalAmount, totalSeatsToReserve)
                  == TotalsOf(ticketTypeRequests[..i])
      {
        var request := ticketTypeRequests[i];
        assert ticketTypeRequests[..i + 1][..i] == ticketTypeRequests[..i];
        assert TotalsOf(ticketTypeRequests[..i + 1]) == Step(TotalsOf(ticketTypeRequests[..i]), request);
        var numberOfTickets := request.noOfTickets;
        totalTickets := totalTickets + numberOfTickets;

        match request.ticketType
        case ADULT =>
          adultTickets := adultTickets + numberOfTickets;
          totalAmount := totalAmount + numberOfTickets * ADULT_TICKET_PRICE;
          totalSeatsToReserve := totalSeatsToReserve + numberOfTickets;
        case CHILD =>
          childTickets := childTickets + numberOfTickets;
          totalAmount := totalAmount + numberOfTickets * CHILD_TICKET_PRICE;
          totalSeatsToReserve := totalSeatsToReserve + numberOfTickets;
        case INFANT =>
          infantTickets := infantTickets + numberOfTickets;
      }
      assert ticketTypeRequests[..|ticketTypeRequests|] == ticketTypeRequests;

      if totalTickets > MAX_TICKETS_ALLOWED {
        return InvalidPurchase(TOO_MANY_TICKETS);
      }

      if adultTickets == 0 && (childTickets > 0 || infantTickets > 0) {
        return InvalidPurchase(ADULT_REQUIRED);
      }

      calls := calls + [MakePayment(accountId.value, totalAmount)];
      calls := calls + [ReserveSeat(accountId.value, totalSeatsToReserve)];
      r := Completed;
    }
  }
}
