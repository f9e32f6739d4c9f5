/**
 * Commitments and their details: the value types exchanged in offers.
 * The commitment hierarchy of the system (provision, payment and action
 * commitments, each with its own detail classes) is closed here into
 * tagged unions that every consumer matches exhaustively.
 */
module Commitments {
  import opened Wrappers

  /** A network identity; its owning key is identified with the party itself. */
  type Party = nat

  /** A point on the map; coordinates are only ever compared for equality here. */
  datatype GeoPoint = GeoPoint(lat: real, lng: real)

  datatype TransportType = AIRLINER | BIKE | CAR | FERRY | TAXI | TRAIN

  /** Trip provision details: a trip between two points inside a time window. */
  datatype TripDetails = TripDetails(
    from: GeoPoint,
    to: GeoPoint,
    departAfter: int,
    arriveBefore: int,
    transportType: TransportType)

  /** Provision details: trips, or some other kind of provision the model does not inspect. */
  datatype ProvisionDetails =
    | Trip(trip: TripDetails)
    | OtherProvision(description: string)

  /**
   * Payment terms. A pre-payment may be refundable up to some instant (absent by
   * default); a post-payment lists the guarantors the beneficiary trusts (empty
   * by default, and then no guarantee is needed).
   */
  datatype PaymentDetails =
    | PrePayment(payBefore: int, refundableBefore: Option<int>)
    | PostPayment(payBefore: int, trustedGuarantors: set<Party>)

  datatype ActionDetails = DummyAction(details: string)

  /** A unilateral promise of a performer to an acceptor. */
  datatype Commitment =
    | Provision(performer: Party, acceptor: Party, provision: ProvisionDetails)
    | Payment(performer: Party, acceptor: Party, payment: PaymentDetails, amount: int)
    | Action(performer: Party, acceptor: Party, action: ActionDetails)

  /** An offer: an ordered bundle of commitments, valid in a time window. */
  datatype Offer = Offer(
    offeror: Party,
    offeree: Party,
    validAfter: int,
    validBefore: int,
    commitments: seq<Commitment>)

  /** A payment commitment that can only be accepted together with a payment guarantee. */
  predicate RequiresGuarantee(c: Commitment) {
    c.Payment? && c.payment.PostPayment? && c.payment.trustedGuarantors != {}
  }

  /** Every element of `others[..n]` is a trip by the given transport type. */
  predicate AllTripsBy(others: seq<ProvisionDetails>, n: int, transportType: TransportType)
    requires 0 <= n <= |others|
  {
    forall j :: 0 <= j < n ==> others[j].Trip? && others[j].trip.transportType == transportType
  }

  /**
   * When a trip is covered by a chain of provisions: the chain is non-empty and
   * made only of trips by the same transport; it starts where the trip starts,
   * ends where the trip ends, departs no earlier and arrives no later.
   * Only the two ends of the chain are compared with the trip.
   */
  predicate CoveredBy(d: TripDetails, others: seq<ProvisionDetails>) {
    && |others| > 0
    && AllTripsBy(others, |others|, d.transportType)
    && d.from == others[0].trip.from
    && d.to == others[|others| - 1].trip.to
    && d.departAfter <= others[0].trip.departAfter
    && d.arriveBefore >= others[|others| - 1].trip.arriveBefore
  }

  /** `TripProvisionDetails.isCoveredBy`: folds the kind checks over the chain, then compares the ends. */
  method IsCoveredBy(d: TripDetails, others: seq<ProvisionDetails>) returns (result: bool)
    ensures result == CoveredBy(d, others)
  {
    result := |others| > 0;
    var i := 0;
    while i < |others|
      invariant 0 <= i <= |others|
      invariant result == (|others| > 0 && AllTripsBy(others, i, d.transportType))
    {
      result := result && others[i].Trip? && others[i].trip.transportType == d.transportType;
      i := i + 1;
    }
    if result {
      var first := others[0].trip;
      var last := others[|others| - 1].trip;
      result := result
        && d.from == first.from
        && d.to == last.to
        && !(d.departAfter > first.departAfter)
        && !(d.arriveBefore < last.arriveBefore);
    }
  }

  /** A trip is covered by itself, and nothing is covered by an empty chain. */
  lemma CoveredBySelf(d: TripDetails)
    ensures CoveredBy(d, [Trip(d)])
    ensures !CoveredBy(d, [])
  {
  }

  /**
   * The middle of a chain is checked for its kind only: replacing an inner trip
   * by any other trip of the same transport does not change the verdict,
   * whatever its end points and times.
   */
  lemma CoveredByIgnoresInnerLegs(d: TripDetails, others: seq<ProvisionDetails>, j: int, leg: TripDetails)
    requires 0 < j < |others| - 1
    requires others[j].Trip? && others[j].trip.transportType == d.transportType
    requires leg.transportType == d.transportType
    ensures CoveredBy(d, others) == CoveredBy(d, others[j := Trip(leg)])
  {
    var others' := others[j := Trip(leg)];
    if AllTripsBy(others, |others|, d.transportType) {
      forall k | 0 <= k < |others'| ensures others'[k].Trip? && others'[k].trip.transportType == d.transportType {
        if k != j { assert others'[k] == others[k]; }
      }
    }
    if AllTripsBy(others', |others'|, d.transportType) {
      forall k | 0 <= k < |others| ensures others[k].Trip? && others[k].trip.transportType == d.transportType {
        if k != j { assert others'[k] == others[k]; }
      }
    }
  }

  /** Coverage is transitive through a single trip: a narrower trip is covered by whatever covers a wider one. */
  lemma CoveredByTransitive(d: TripDetails, wider: TripDetails, others: seq<ProvisionDetails>)
    requires CoveredBy(d, [Trip(wider)])
    requires CoveredBy(wider, others)
    ensures CoveredBy(d, others)
  {
  }
}
