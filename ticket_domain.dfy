/** Value types that the ticket service works with: the three ticket types,
    a single line item of a purchase, the nullable account identifier, and
    the two calls the service makes on its external collaborators. */
module TicketDomain {

  /** The closed set of ticket types; a fourth type would make every
      `match` on it fail to resolve until it is handled. */
  datatype TicketType = ADULT | CHILD | INFANT

  /** One line item: a ticket type and how many tickets of it are wanted.
      The quantity is an unchecked integer, as in the source. */
  datatype TicketTypeRequest = TicketTypeRequest(ticketType: TicketType, noOfTickets: int)

  /** A possibly absent value; `None` stands for a null `Long` account id. */
  datatype Option<T> = None | Some(value: T)

  /** An invocation of one of the two external collaborators. */
  datatype Call =
    | MakePayment(accountId: int, amount: int)   // payment gateway
    | ReserveSeat(accountId: int, seats: int)    // seat booking
}
