/**
 * Offer composition of the mock trip providers: every slot the provider's
 * schedule finds in the requested window becomes a trip provision, and each
 * provision is offered against one or three payment plans whose amounts are
 * discounted shares of the trip's base price.
 */
module TripOffers {
  import opened Wrappers
  import opened Time
  import opened Commitments
  import opened Schedules

  /** Discount, in percent, for each guaranteed post-payment. */
  const GUARANTEE_DISCOUNT: int := 5
  /** Discount, in percent, for each refundable pre-payment. */
  const PREPAYMENT_DISCOUNT: int := 10
  /** Discount, in percent, for each non-refundable pre-payment. */
  const NON_REFUNDABLE_PREPAYMENT_DISCOUNT: int := 20
  /** A guaranteed post-payment is due this long after the trip's latest arrival. */
  const POST_PAYMENT_GRACE: int := 30 * MINUTE

  /** Integer division truncating toward zero, as on the JVM. */
  function TruncDiv(a: int, b: int): (q: int)
    requires b > 0
    ensures a >= 0 ==> q >= 0 && q * b <= a < (q + 1) * b
    ensures a < 0 ==> q <= 0 && (q - 1) * b < a <= q * b
  {
    if a >= 0 then
      DivBounds(a, b);
      a / b
    else
      DivBounds(-a, b);
      -((-a) / b)
  }

  /** Euclidean division of a non-negative number: the quotient brackets it. */
  lemma DivBounds(x: int, b: int)
    requires x >= 0 && b > 0
    ensures x / b >= 0 && (x / b) * b <= x < (x / b + 1) * b
  {
    var q, r := x / b, x % b;
    assert x == q * b + r && 0 <= r < b;
    assert (q + 1) * b == q * b + b;
  }

  /**
   * `((100 - discount) * basePrice) / (100 * parts)`: one of `parts` equal
   * shares of the discounted base price, rounded down for a non-negative price.
   */
  function Share(discount: int, basePrice: int, parts: int): (amount: int)
    requires 0 <= discount <= 100 && parts >= 1
    ensures basePrice >= 0 ==> 0 <= amount && 100 * parts * amount <= (100 - discount) * basePrice
    ensures basePrice >= 0 ==> (100 - discount) * basePrice < 100 * parts * (amount + 1)
  {
    TruncDiv((100 - discount) * basePrice, 100 * parts)
  }

  /** What every offer composed for one request shares: the parties, the validity window, the price and the guarantors. */
  datatype OfferTerms = OfferTerms(
    performer: Party,
    acceptor: Party,
    validAfter: int,
    validBefore: int,
    basePrice: int,
    trustedGuarantors: set<Party>)

  /** The trip provision an offer is built around. */
  function ProvisionFor(terms: OfferTerms, trip: TripDetails): Commitment {
    Provision(terms.performer, terms.acceptor, Trip(trip))
  }

  /** A payment from the provision's acceptor to its performer. */
  function PaymentFor(terms: OfferTerms, details: PaymentDetails, amount: int): Commitment {
    Payment(terms.acceptor, terms.performer, details, amount)
  }

  /** The post-payment that needs a guarantee: due half an hour after the trip's latest arrival. */
  function GuaranteedPostPayment(terms: OfferTerms, trip: TripDetails, amount: int): Commitment {
    PaymentFor(terms, PostPayment(trip.arriveBefore + POST_PAYMENT_GRACE, terms.trustedGuarantors), amount)
  }

  // ---------------------------------------------------------------------------
  // What an offer promises

  /** The provision commitments among `cs`, in order. */
  function Provisions(cs: seq<Commitment>): (ps: seq<Commitment>)
    ensures |ps| <= |cs|
    ensures forall k :: 0 <= k < |ps| ==> ps[k].Provision?
  {
    if cs == [] then []
    else (if cs[0].Provision? then [cs[0]] else []) + Provisions(cs[1..])
  }

  /** The sum of the payment amounts among `cs`. */
  function PaymentTotal(cs: seq<Commitment>): int {
    if cs == [] then 0
    else (if cs[0].Payment? then cs[0].amount else 0) + PaymentTotal(cs[1..])
  }

  /** The number of commitments among `cs` that can only be accepted with a payment guarantee. */
  function GuaranteesNeeded(cs: seq<Commitment>): nat {
    if cs == [] then 0
    else (if RequiresGuarantee(cs[0]) then 1 else 0) + GuaranteesNeeded(cs[1..])
  }

  /** Every payment among `cs` runs from the provision's acceptor to its performer. */
  predicate PaymentsReversed(cs: seq<Commitment>, performer: Party, acceptor: Party) {
    forall k :: 0 <= k < |cs| && cs[k].Payment? ==> cs[k].performer == acceptor && cs[k].acceptor == performer
  }

  /** The summaries of a list of commitments, one commitment at a time. */
  lemma Cons(c: Commitment, rest: seq<Commitment>, performer: Party, acceptor: Party)
    ensures Provisions([c] + rest) == (if c.Provision? then [c] else []) + Provisions(rest)
    ensures PaymentTotal([c] + rest) == (if c.Payment? then c.amount else 0) + PaymentTotal(rest)
    ensures GuaranteesNeeded([c] + rest) == (if RequiresGuarantee(c) then 1 else 0) + GuaranteesNeeded(rest)
    ensures PaymentsReversed([c] + rest, performer, acceptor)
        <==> (c.Payment? ==> c.performer == acceptor && c.acceptor == performer) && PaymentsReversed(rest, performer, acceptor)
  {
    var cs := [c] + rest;
    assert cs[1..] == rest;
    if PaymentsReversed(cs, performer, acceptor) {
      forall k | 0 <= k < |rest| && rest[k].Payment? ensures rest[k].performer == acceptor && rest[k].acceptor == performer {
        assert rest[k] == cs[k + 1];
      }
    }
  }

  /**
   * `o` offers exactly the provision of `trip` under `terms`: the performer
   * offers to the acceptor within the validity window, the trip is the one and
   * only provision, every payment runs the other way, and the payments add up
   * to no more than the base price.
   */
  predicate OfferFor(o: Offer, terms: OfferTerms, trip: TripDetails) {
    && o.offeror == terms.performer
    && o.offeree == terms.acceptor
    && o.validAfter == terms.validAfter
    && o.validBefore == terms.validBefore
    && Provisions(o.commitments) == [ProvisionFor(terms, trip)]
    && PaymentsReversed(o.commitments, terms.performer, terms.acceptor)
    && (terms.basePrice >= 0 ==> PaymentTotal(o.commitments) <= terms.basePrice)
  }

  // ---------------------------------------------------------------------------
  // The three payment plans

  /** `offer_100nonRefundable_Provision`: a single non-refundable pre-payment of 80% of the base price. */
  function NonRefundableOffer(terms: OfferTerms, trip: TripDetails): (o: Offer)
    ensures OfferFor(o, terms, trip)
    ensures GuaranteesNeeded(o.commitments) == 0
    ensures |o.commitments| == 2
    ensures o.commitments[0].Payment? && o.commitments[0].payment == PrePayment(terms.validBefore, None)
    ensures terms.basePrice >= 0 ==> 100 * o.commitments[0].amount <= 80 * terms.basePrice < 100 * (o.commitments[0].amount + 1)
  {
    var pre := PaymentFor(terms, PrePayment(terms.validBefore, None), Share(NON_REFUNDABLE_PREPAYMENT_DISCOUNT, terms.basePrice, 1));
    var cs := [pre] + ([ProvisionFor(terms, trip)] + []);
    Cons(ProvisionFor(terms, trip), [], terms.performer, terms.acceptor);
    Cons(pre, [ProvisionFor(terms, trip)] + [], terms.performer, terms.acceptor);
    Offer(terms.performer, terms.acceptor, terms.validAfter, terms.validBefore, cs)
  }

  /**
   * `offer_50refundable_Provision_50guaranteed`: half of the price, discounted
   * by 10%, as a pre-payment refundable before departure, and the other half,
   * discounted by 5%, as a guaranteed post-payment.
   */
  function HalfGuaranteedOffer(terms: OfferTerms, trip: TripDetails): (o: Offer)
    ensures OfferFor(o, terms, trip)
    ensures |o.commitments| == 3
    ensures GuaranteesNeeded(o.commitments) == (if terms.trustedGuarantors == {} then 0 else 1)
    ensures o.commitments[0].Payment? && o.commitments[0].payment == PrePayment(terms.validBefore, Some(trip.departAfter))
    ensures o.commitments[2].Payment? && o.commitments[2] == GuaranteedPostPayment(terms, trip, o.commitments[2].amount)
    ensures terms.basePrice >= 0 ==> 200 * o.commitments[0].amount <= 90 * terms.basePrice < 200 * (o.commitments[0].amount + 1)
    ensures terms.basePrice >= 0 ==> 200 * o.commitments[2].amount <= 95 * terms.basePrice < 200 * (o.commitments[2].amount + 1)
  {
    var pre := PaymentFor(terms, PrePayment(terms.validBefore, Some(trip.departAfter)), Share(PREPAYMENT_DISCOUNT, terms.basePrice, 2));
    var post := GuaranteedPostPayment(terms, trip, Share(GUARANTEE_DISCOUNT, terms.basePrice, 2));
    var cs := [pre] + ([ProvisionFor(terms, trip)] + ([post] + []));
    Cons(post, [], terms.performer, terms.acceptor);
    Cons(ProvisionFor(terms, trip), [post] + [], terms.performer, terms.acceptor);
    Cons(pre, [ProvisionFor(terms, trip)] + ([post] + []), terms.performer, terms.acceptor);
    Offer(terms.performer, terms.acceptor, terms.validAfter, terms.validBefore, cs)
  }

  /**
   * `offer_33nonRefundable_33refundable_Provision_33guaranteed`: a third of the
   * price as a non-refundable pre-payment (20% off), a third as a pre-payment
   * refundable before departure (10% off) and a third as a guaranteed
   * post-payment (5% off).
   */
  function ThirdsGuaranteedOffer(terms: OfferTerms, trip: TripDetails): (o: Offer)
    ensures OfferFor(o, terms, trip)
    ensures |o.commitments| == 4
    ensures GuaranteesNeeded(o.commitments) == (if terms.trustedGuarantors == {} then 0 else 1)
    ensures o.commitments[0].Payment? && o.commitments[0].payment == PrePayment(terms.validBefore, None)
    ensures o.commitments[1].Payment? && o.commitments[1].payment == PrePayment(terms.validBefore, Some(trip.departAfter))
    ensures o.commitments[3].Payment? && o.commitments[3] == GuaranteedPostPayment(terms, trip, o.commitments[3].amount)
    ensures terms.basePrice >= 0 ==> 300 * o.commitments[0].amount <= 80 * terms.basePrice < 300 * (o.commitments[0].amount + 1)
    ensures terms.basePrice >= 0 ==> 300 * o.commitments[1].amount <= 90 * terms.basePrice < 300 * (o.commitments[1].amount + 1)
    ensures terms.basePrice >= 0 ==> 300 * o.commitments[3].amount <= 95 * terms.basePrice < 300 * (o.commitments[3].amount + 1)
  {
    var nonRefundable := PaymentFor(terms, PrePayment(terms.validBefore, None), Share(NON_REFUNDABLE_PREPAYMENT_DISCOUNT, terms.basePrice, 3));
    var refundable := PaymentFor(terms, PrePayment(terms.validBefore, Some(trip.departAfter)), Share(PREPAYMENT_DISCOUNT, terms.basePrice, 3));
    var post := GuaranteedPostPayment(terms, trip, Share(GUARANTEE_DISCOUNT, terms.basePrice, 3));
    var cs := [nonRefundable] + ([refundable] + ([ProvisionFor(terms, trip)] + ([post] + [])));
    Cons(post, [], terms.performer, terms.acceptor);
    Cons(ProvisionFor(terms, trip), [post] + [], terms.performer, terms.acceptor);
    Cons(refundable, [ProvisionFor(terms, trip)] + ([post] + []), terms.performer, terms.acceptor);
    Cons(nonRefundable, [refundable] + ([ProvisionFor(terms, trip)] + ([post] + [])), terms.performer, terms.acceptor);
    Offer(terms.performer, terms.acceptor, terms.validAfter, terms.validBefore, cs)
  }

  // ---------------------------------------------------------------------------
  // Composition

  /** The offers for one candidate trip, in the order they are added. */
  function OffersForTrip(terms: OfferTerms, trip: TripDetails): (os: seq<Offer>)
    ensures |os| == if terms.trustedGuarantors == {} then 1 else 3
    ensures forall k :: 0 <= k < |os| ==> OfferFor(os[k], terms, trip)
  {
    [NonRefundableOffer(terms, trip)]
      + (if terms.trustedGuarantors == {} then [] else [HalfGuaranteedOffer(terms, trip), ThirdsGuaranteedOffer(terms, trip)])
  }

  /** The offers for the candidate trips, candidate by candidate. */
  function OffersForTrips(terms: OfferTerms, trips: seq<TripDetails>): (os: seq<Offer>)
    decreases |trips|
  {
    if trips == [] then []
    else OffersForTrips(terms, trips[..|trips| - 1]) + OffersForTrip(terms, trips[|trips| - 1])
  }

  /** The trip details of each slot: the requested route and the provider's transport, timed by the slot. */
  function CandidateTrips(requested: TripDetails, transportType: TransportType, slots: seq<Slot>): (trips: seq<TripDetails>)
    ensures |trips| == |slots|
    ensures forall i :: 0 <= i < |slots| ==>
      trips[i] == TripDetails(requested.from, requested.to, slots[i].departure, slots[i].arrival, transportType)
  {
    seq(|slots|, i requires 0 <= i < |slots| =>
      TripDetails(requested.from, requested.to, slots[i].departure, slots[i].arrival, transportType))
  }

  /**
   * `composeOffers` as a function of the request: nothing unless a trip by the
   * provider's own transport is requested; otherwise the offers for every slot
   * of the provider's schedule, priced by the trip's distance.
   */
  function Offers(requested: Commitment, myTransportType: TransportType, schedule: Schedule, distance: nat,
                  trustedGuarantors: set<Party>, validAfter: int, validityMinutes: int): (os: seq<Offer>)
    requires requested.Provision? && ValidSchedule(schedule)
  {
    if !requested.provision.Trip? then []
    else
      var trip := requested.provision.trip;
      if trip.transportType != myTransportType then []
      else
        var terms := OfferTerms(requested.performer, requested.acceptor, validAfter, validAfter + validityMinutes * MINUTE,
                                TripPrice(distance, myTransportType), trustedGuarantors);
        OffersForTrips(terms, CandidateTrips(trip, myTransportType, Slots(schedule, trip, distance)))
  }

  /** `composeOffers`: one or three offers per candidate trip, added in candidate order. */
  method ComposeOffers(requested: Commitment, myTransportType: TransportType, schedule: Schedule, distance: nat,
                       trustedGuarantors: set<Party>, validAfter: int, validityMinutes: int)
    returns (result: seq<Offer>)
    requires requested.Provision? && ValidSchedule(schedule)
    ensures result == Offers(requested, myTransportType, schedule, distance, trustedGuarantors, validAfter, validityMinutes)
  {
    if !requested.provision.Trip? {
      return [];
    }
    var requestedDetails := requested.provision.trip;
    if requestedDetails.transportType != myTransportType {
      return [];
    }
    var slots := DeparturesAndArrivals(schedule, requestedDetails, distance);
    var trips := CandidateTrips(requestedDetails, myTransportType, slots);
    var validBefore := validAfter + validityMinutes * MINUTE;
    var terms := OfferTerms(requested.performer, requested.acceptor, validAfter, validBefore,
                            TripPrice(distance, myTransportType), trustedGuarantors);
    result := AddOffers(terms, trips);
    OffersOfTrip(requested, myTransportType, schedule, distance, trustedGuarantors, validAfter, validityMinutes, terms, trips);
  }

  /** For a trip by the provider's own transport, the offers are those of its candidate trips under its terms. */
  lemma OffersOfTrip(requested: Commitment, myTransportType: TransportType, schedule: Schedule, distance: nat,
                     trustedGuarantors: set<Party>, validAfter: int, validityMinutes: int,
                     terms: OfferTerms, trips: seq<TripDetails>)
    requires requested.Provision? && ValidSchedule(schedule)
    requires requested.provision.Trip? && requested.provision.trip.transportType == myTransportType
    requires terms == OfferTerms(requested.performer, requested.acceptor, validAfter, validAfter + validityMinutes * MINUTE,
                                 TripPrice(distance, myTransportType), trustedGuarantors)
    requires trips == CandidateTrips(requested.provision.trip, myTransportType, Slots(schedule, requested.provision.trip, distance))
    ensures Offers(requested, myTransportType, schedule, distance, trustedGuarantors, validAfter, validityMinutes)
            == OffersForTrips(terms, trips)
  {
  }

  /** The `forEach` of `composeOffers`: adds the offers for each candidate trip to the result, in order. */
  method AddOffers(terms: OfferTerms, trips: seq<TripDetails>) returns (result: seq<Offer>)
    ensures result == OffersForTrips(terms, trips)
  {
    result := [];
    var i := 0;
    while i < |trips|
      invariant 0 <= i <= |trips|
      invariant result == OffersForTrips(terms, trips[..i])
    {
      OffersForTripsStep(terms, trips, i);
      result := result + [NonRefundableOffer(terms, trips[i])];
      if terms.trustedGuarantors != {} {
        result := result + [HalfGuaranteedOffer(terms, trips[i])];
        result := result + [ThirdsGuaranteedOffer(terms, trips[i])];
      }
      i := i + 1;
    }
    assert trips[..i] == trips;
  }

  /** One more candidate trip appends its own offers. */
  lemma OffersForTripsStep(terms: OfferTerms, trips: seq<TripDetails>, i: nat)
    requires i < |trips|
    ensures OffersForTrips(terms, trips[..i + 1]) == OffersForTrips(terms, trips[..i]) + OffersForTrip(terms, trips[i])
  {
    assert trips[..i + 1][..i] == trips[..i];
  }

  // ---------------------------------------------------------------------------
  // Properties of the composition

  /** Nothing is offered for a request that is not a trip, or for a trip by another transport. */
  lemma NoOffersForOtherRequests(requested: Commitment, myTransportType: TransportType, schedule: Schedule, distance: nat,
                                 trustedGuarantors: set<Party>, validAfter: int, validityMinutes: int)
    requires requested.Provision? && ValidSchedule(schedule)
    requires !requested.provision.Trip? || requested.provision.trip.transportType != myTransportType
    ensures Offers(requested, myTransportType, schedule, distance, trustedGuarantors, validAfter, validityMinutes) == []
  {
  }

  /** Without trusted guarantors each candidate trip gets exactly its non-refundable offer, in candidate order. */
  lemma {:induction false} OffersWithoutGuarantors(terms: OfferTerms, trips: seq<TripDetails>)
    requires terms.trustedGuarantors == {}
    ensures |OffersForTrips(terms, trips)| == |trips|
    ensures forall i :: 0 <= i < |trips| ==> OffersForTrips(terms, trips)[i] == NonRefundableOffer(terms, trips[i])
    decreases |trips|
  {
    if trips != [] {
      var init := trips[..|trips| - 1];
      OffersWithoutGuarantors(terms, init);
      forall i | 0 <= i < |trips| ensures OffersForTrips(terms, trips)[i] == NonRefundableOffer(terms, trips[i]) {
        if i < |init| {
          assert trips[i] == init[i];
        }
      }
    }
  }

  /**
   * With trusted guarantors each candidate trip gets three consecutive offers:
   * the non-refundable one, the half-guaranteed one and the thirds one.
   */
  lemma {:induction false} OffersWithGuarantors(terms: OfferTerms, trips: seq<TripDetails>)
    requires terms.trustedGuarantors != {}
    ensures |OffersForTrips(terms, trips)| == 3 * |trips|
    ensures forall i :: 0 <= i < |trips| ==>
      && OffersForTrips(terms, trips)[3 * i] == NonRefundableOffer(terms, trips[i])
      && OffersForTrips(terms, trips)[3 * i + 1] == HalfGuaranteedOffer(terms, trips[i])
      && OffersForTrips(terms, trips)[3 * i + 2] == ThirdsGuaranteedOffer(terms, trips[i])
    decreases |trips|
  {
    if trips != [] {
      var init := trips[..|trips| - 1];
      OffersWithGuarantors(terms, init);
      var os := OffersForTrips(terms, trips);
      var before := OffersForTrips(terms, init);
      var last := OffersForTrip(terms, trips[|init|]);
      assert os == before + last;
      forall i | 0 <= i < |trips|
        ensures os[3 * i] == NonRefundableOffer(terms, trips[i])
        ensures os[3 * i + 1] == HalfGuaranteedOffer(terms, trips[i])
        ensures os[3 * i + 2] == ThirdsGuaranteedOffer(terms, trips[i])
      {
        if i < |init| {
          assert trips[i] == init[i];
          assert os[3 * i] == before[3 * i] && os[3 * i + 1] == before[3 * i + 1] && os[3 * i + 2] == before[3 * i + 2];
        } else {
          assert os[3 * i] == last[0] && os[3 * i + 1] == last[1] && os[3 * i + 2] == last[2];
        }
      }
    }
  }

  /**
   * Every composed offer offers one of the candidate trips, by the requested
   * route and transport, inside the requested window and at least as long as
   * the trip's duration; and the requested trip is covered by it.
   */
  lemma OffersMatchRequest(requested: Commitment, myTransportType: TransportType, schedule: Schedule, distance: nat,
                           trustedGuarantors: set<Party>, validAfter: int, validityMinutes: int)
    requires requested.Provision? && ValidSchedule(schedule)
    requires requested.provision.Trip? && requested.provision.trip.transportType == myTransportType
    ensures var trip := requested.provision.trip;
      var slots := Slots(schedule, trip, distance);
      var os := Offers(requested, myTransportType, schedule, distance, trustedGuarantors, validAfter, validityMinutes);
      && |os| == (if trustedGuarantors == {} then |slots| else 3 * |slots|)
      && forall j :: 0 <= j < |os| ==>
           exists t :: OfferedTrip(os[j], requested, t) && CoveredBy(trip, [Trip(t)])
  {
    var trip := requested.provision.trip;
    var slots := Slots(schedule, trip, distance);
    var terms := OfferTerms(requested.performer, requested.acceptor, validAfter, validAfter + validityMinutes * MINUTE,
                            TripPrice(distance, myTransportType), trustedGuarantors);
    var trips := CandidateTrips(trip, myTransportType, slots);
    var os := OffersForTrips(terms, trips);
    OffersCount(terms, trips);
    forall j | 0 <= j < |os| ensures exists t :: OfferedTrip(os[j], requested, t) && CoveredBy(trip, [Trip(t)]) {
      var i := OfferOfTrip(terms, trips, j);
      CandidateCovered(trip, slots, TripDuration(distance, myTransportType), i);
    }
  }

  /** The composition has one offer per candidate trip without trusted guarantors and three with them. */
  lemma OffersCount(terms: OfferTerms, trips: seq<TripDetails>)
    ensures |OffersForTrips(terms, trips)| == if terms.trustedGuarantors == {} then |trips| else 3 * |trips|
  {
    if terms.trustedGuarantors == {} {
      OffersWithoutGuarantors(terms, trips);
    } else {
      OffersWithGuarantors(terms, trips);
    }
  }

  /** Each composed offer is an offer for one of the candidate trips. */
  lemma OfferOfTrip(terms: OfferTerms, trips: seq<TripDetails>, j: nat) returns (i: nat)
    requires j < |OffersForTrips(terms, trips)|
    ensures i < |trips| && OfferFor(OffersForTrips(terms, trips)[j], terms, trips[i])
  {
    if terms.trustedGuarantors == {} {
      OffersWithoutGuarantors(terms, trips);
      i := j;
    } else {
      OffersWithGuarantors(terms, trips);
      i := j / 3;
      var os := OffersForTrips(terms, trips);
      if j == 3 * i {
        assert os[j] == NonRefundableOffer(terms, trips[i]);
      } else if j == 3 * i + 1 {
        assert os[j] == HalfGuaranteedOffer(terms, trips[i]);
      } else {
        assert os[j] == ThirdsGuaranteedOffer(terms, trips[i]);
      }
    }
  }

  /** The requested trip is covered by each candidate trip built from a slot of its window. */
  lemma CandidateCovered(trip: TripDetails, slots: seq<Slot>, duration: int, i: nat)
    requires AllInWindow(slots, trip.departAfter, trip.arriveBefore, duration)
    requires i < |slots|
    ensures CoveredBy(trip, [Trip(CandidateTrips(trip, trip.transportType, slots)[i])])
  {
  }

  /**
   * `o` is an offer, by the requested performer to the requested acceptor, of
   * the trip `t` as its only provision.
   */
  predicate OfferedTrip(o: Offer, requested: Commitment, t: TripDetails)
    requires requested.Provision?
  {
    && o.offeror == requested.performer
    && o.offeree == requested.acceptor
    && Provisions(o.commitments) == [Provision(requested.performer, requested.acceptor, Trip(t))]
    && PaymentsReversed(o.commitments, requested.performer, requested.acceptor)
  }
}
