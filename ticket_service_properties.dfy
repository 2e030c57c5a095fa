/** What the purchase routine guarantees, stated over all inputs: the loop's
    counters are the per-type sums of the quantities, the three rules reject
    exactly the purchases they describe and in a fixed order, an accepted
    purchase is charged and seated by fixed prices, and neither the order nor
    the splitting of the line items matters. */
module TicketServiceProperties {
  import opened TicketDomain
  import opened TicketService

  /** Componentwise sum of two sets of counters. */
  function Plus(t: Totals, u: Totals): (sum: Totals)
  {
    Totals(t.total + u.total, t.adult + u.adult, t.child + u.child,
           t.infant + u.infant, t.amount + u.amount, t.seats + u.seats)
  }

  /** Every ticket of a purchase, whatever its type. */
  function TicketCount(requests: seq<TicketTypeRequest>): (n: int)
  {
    Count(requests, ADULT) + Count(requests, CHILD) + Count(requests, INFANT)
  }

  /** The adult rule fails: no adult, but some child or infant. */
  predicate MissingAdult(requests: seq<TicketTypeRequest>)
  {
    Count(requests, ADULT) == 0 && (Count(requests, CHILD) > 0 || Count(requests, INFANT) > 0)
  }

  predicate NonNegativeQuantities(requests: seq<TicketTypeRequest>)
  {
    forall i :: 0 <= i < |requests| ==> requests[i].noOfTickets >= 0
  }

  // ---------------------------------------------------------------------------
  // The counters

  lemma {:induction false} CountAppend(a: seq<TicketTypeRequest>, b: seq<TicketTypeRequest>, ty: TicketType)
    ensures Count(a + b, ty) == Count(a, ty) + Count(b, ty)
  {
    if a == [] {
      assert a + b == b;
    } else {
      assert (a + b)[1..] == a[1..] + b;
      CountAppend(a[1..], b, ty);
    }
  }

  lemma {:induction false} CountNonNegative(requests: seq<TicketTypeRequest>, ty: TicketType)
    requires NonNegativeQuantities(requests)
    ensures Count(requests, ty) >= 0
  {
    if requests != [] {
      assert NonNegativeQuantities(requests[1..]) by {
        forall i | 0 <= i < |requests[1..]| ensures requests[1..][i].noOfTickets >= 0 {
          assert requests[1..][i] == requests[i + 1];
        }
      }
      CountNonNegative(requests[1..], ty);
    }
  }

  /** The six counters the loop ends with are the per-type sums of the
      quantities, with the total, the amount and the seats derived from them. */
  lemma {:induction false} TotalsAreCounts(requests: seq<TicketTypeRequest>)
    ensures TotalsOf(requests)
            == Priced(Count(requests, ADULT), Count(requests, CHILD), Count(requests, INFANT))
  {
    if requests != [] {
      var front, last := requests[..|requests| - 1], requests[|requests| - 1];
      assert front + [last] == requests;
      TotalsAreCounts(front);
      CountAppend(front, [last], ADULT);
      CountAppend(front, [last], CHILD);
      CountAppend(front, [last], INFANT);
    }
  }

  /** Aggregating two batches of requests one after the other adds their counters. */
  lemma {:induction false} TotalsAppend(a: seq<TicketTypeRequest>, b: seq<TicketTypeRequest>)
    ensures TotalsOf(a + b) == Plus(TotalsOf(a), TotalsOf(b))
  {
    if b == [] {
      assert a + b == a;
    } else {
      var front, last := b[..|b| - 1], b[|b| - 1];
      var ab := a + b;
      assert ab[..|ab| - 1] == a + front;
      assert ab[|ab| - 1] == last;
      assert TotalsOf(ab) == Step(TotalsOf(a + front), last);
      assert TotalsOf(b) == Step(TotalsOf(front), last);
      TotalsAppend(a, front);
      StepPlus(TotalsOf(a), TotalsOf(front), last);
    }
  }

  lemma StepPlus(t: Totals, u: Totals, request: TicketTypeRequest)
    ensures Step(Plus(t, u), request) == Plus(t, Step(u, request))
  {
  }

  lemma CountWithout(b: seq<TicketTypeRequest>, j: nat, ty: TicketType)
    requires j < |b|
    ensures Count(b, ty) == Contribution(b[j], ty) + Count(b[..j] + b[j + 1..], ty)
  {
    var tail := [b[j]] + b[j + 1..];
    assert b == b[..j] + tail;
    assert tail[1..] == b[j + 1..];
    CountAppend(b[..j], tail, ty);
    CountAppend(b[..j], b[j + 1..], ty);
  }

  /** Where the first element of `a` sits in a permutation `b` of it, and
      what is left of both once it is taken out. */
  lemma MatchFirst(a: seq<TicketTypeRequest>, b: seq<TicketTypeRequest>) returns (j: nat)
    requires multiset(a) == multiset(b)
    requires a != []
    ensures j < |b| && b[j] == a[0]
    ensures multiset(a[1..]) == multiset(b[..j] + b[j + 1..])
  {
    assert a[0] in multiset(b);
    j :| 0 <= j < |b| && b[j] == a[0];
    assert a == [a[0]] + a[1..];
    assert b == b[..j] + [b[j]] + b[j + 1..];
    assert multiset(a[1..]) == multiset(a) - multiset{a[0]};
    assert multiset(b[..j] + b[j + 1..]) == multiset(b) - multiset{b[j]};
  }

  lemma {:induction false} CountPermutation(a: seq<TicketTypeRequest>, b: seq<TicketTypeRequest>, ty: TicketType)
    requires multiset(a) == multiset(b)
    ensures Count(a, ty) == Count(b, ty)
  {
    if a == [] {
      assert |b| == |multiset(b)|;
      assert b == [];
    } else {
      var j := MatchFirst(a, b);
      CountPermutation(a[1..], b[..j] + b[j + 1..], ty);
      CountWithout(b, j, ty);
    }
  }

  /** The counters do not depend on the order of the requests. */
  lemma {:induction false} TotalsPermutation(a: seq<TicketTypeRequest>, b: seq<TicketTypeRequest>)
    requires multiset(a) == multiset(b)
    ensures TotalsOf(a) == TotalsOf(b)
  {
    TotalsAreCounts(a);
    TotalsAreCounts(b);
    CountPermutation(a, b, ADULT);
    CountPermutation(a, b, CHILD);
    CountPermutation(a, b, INFANT);
  }

  /** The counters do not depend on whether a quantity comes in one request
      or in two requests of the same type. */
  lemma {:induction false} TotalsSplit(before: seq<TicketTypeRequest>, after: seq<TicketTypeRequest>,
                                       ty: TicketType, m: int, n: int)
    ensures TotalsOf(before + [TicketTypeRequest(ty, m + n)] + after)
            == TotalsOf(before + [TicketTypeRequest(ty, m), TicketTypeRequest(ty, n)] + after)
  {
    var whole := [TicketTypeRequest(ty, m + n)];
    var parts := [TicketTypeRequest(ty, m), TicketTypeRequest(ty, n)];
    assert parts[..1] == [TicketTypeRequest(ty, m)];
    assert TotalsOf(whole) == TotalsOf(parts);
    TotalsAppend(before + whole, after);
    TotalsAppend(before, whole);
    TotalsAppend(before + parts, after);
    TotalsAppend(before, parts);
  }

  // ---------------------------------------------------------------------------
  // The rules and their order

  /** An absent or non-positive account id is rejected, whatever the requests. */
  lemma InvalidAccountRejected(accountId: Option<int>, requests: seq<TicketTypeRequest>)
    requires !ValidAccount(accountId)
    ensures Purchase(accountId, requests) == Rejected(INVALID_ACCOUNT)
    ensures Effects(Purchase(accountId, requests)) == []
  {
  }

  /** With a valid account, more than 25 tickets in all, infants included, is
      rejected by the cap, whether or not the adult rule would also fail. */
  lemma TooManyTicketsRejected(accountId: Option<int>, requests: seq<TicketTypeRequest>)
    requires ValidAccount(accountId)
    requires TicketCount(requests) > MAX_TICKETS_ALLOWED
    ensures Purchase(accountId, requests) == Rejected(TOO_MANY_TICKETS)
    ensures Effects(Purchase(accountId, requests)) == []
  {
    TotalsAreCounts(requests);
  }

  /** With a valid account and at most 25 tickets, children or infants
      without any adult are rejected. */
  lemma AdultRequiredRejected(accountId: Option<int>, requests: seq<TicketTypeRequest>)
    requires ValidAccount(accountId)
    requires TicketCount(requests) <= MAX_TICKETS_ALLOWED
    requires MissingAdult(requests)
    ensures Purchase(accountId, requests) == Rejected(ADULT_REQUIRED)
    ensures Effects(Purchase(accountId, requests)) == []
  {
    TotalsAreCounts(requests);
  }

  /** A purchase goes through exactly when no rule fails. */
  lemma PurchaseAcceptedIff(accountId: Option<int>, requests: seq<TicketTypeRequest>)
    ensures Purchase(accountId, requests).Accepted?
            <==> ValidAccount(accountId)
                 && TicketCount(requests) <= MAX_TICKETS_ALLOWED
                 && !MissingAdult(requests)
  {
    TotalsAreCounts(requests);
  }

  /** An accepted purchase pays 25 per adult and 15 per child, reserves one
      seat per adult or child, and does so with one payment followed by one
      reservation on the caller's account. */
  lemma AcceptedCharges(accountId: Option<int>, requests: seq<TicketTypeRequest>)
    requires Purchase(accountId, requests).Accepted?
    ensures accountId.Some?
    ensures Effects(Purchase(accountId, requests))
            == [MakePayment(accountId.value, 25 * Count(requests, ADULT) + 15 * Count(requests, CHILD)),
                ReserveSeat(accountId.value, Count(requests, ADULT) + Count(requests, CHILD))]
  {
    TotalsAreCounts(requests);
  }

  /** When every quantity is non-negative and they add up to nothing, every
      rule passes and the account is charged 0 for 0 seats. */
  lemma ZeroTicketsAccepted(accountId: Option<int>, requests: seq<TicketTypeRequest>)
    requires ValidAccount(accountId)
    requires NonNegativeQuantities(requests)
    requires TicketCount(requests) == 0
    ensures Purchase(accountId, requests) == Accepted(accountId.value, 0, 0)
  {
    TotalsAreCounts(requests);
    CountNonNegative(requests, ADULT);
    CountNonNegative(requests, CHILD);
    CountNonNegative(requests, INFANT);
  }

  /** Exactly 25 tickets with at least one adult pass the cap. */
  lemma MaxTicketsAccepted(accountId: Option<int>, requests: seq<TicketTypeRequest>)
    requires ValidAccount(accountId)
    requires TicketCount(requests) == MAX_TICKETS_ALLOWED
    requires Count(requests, ADULT) >= 1
    ensures Purchase(accountId, requests).Accepted?
  {
    TotalsAreCounts(requests);
  }

  // ---------------------------------------------------------------------------
  // Independence from the shape of the request list

  /** Reordering the requests changes nothing about the decision. */
  lemma PurchaseOrderIndependent(accountId: Option<int>, a: seq<TicketTypeRequest>, b: seq<TicketTypeRequest>)
    requires multiset(a) == multiset(b)
    ensures Purchase(accountId, a) == Purchase(accountId, b)
  {
    TotalsPermutation(a, b);
  }

  /** Splitting one request into two of the same type changes nothing about
      the decision. */
  lemma PurchaseSplitIndependent(accountId: Option<int>, before: seq<TicketTypeRequest>,
                                 after: seq<TicketTypeRequest>, ty: TicketType, m: int, n: int)
    ensures Purchase(accountId, before + [TicketTypeRequest(ty, m + n)] + after)
            == Purchase(accountId, before + [TicketTypeRequest(ty, m), TicketTypeRequest(ty, n)] + after)
  {
    TotalsSplit(before, after, ty, m, n);
  }
}
