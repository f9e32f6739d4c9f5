/**
 * Offer acceptance by the offeree: the commitments of the offer become
 * ledger records, the guarantee-requiring payment commitments are paired in
 * order with the guarantees the offeree names, each pair becomes a payment
 * obligation, and one agreement lists everything created.
 */
module OfferAcceptance {
  import opened Wrappers
  import opened Commitments
  import opened MonetaryStates
  import opened LedgerRecords
  import TripOffers

  /** Each commitment of an offer as a record of the same kind, with fresh identifiers from `next` on. */
  function Materialise(cs: seq<Commitment>, next: Id): (states: seq<CommitmentState>)
    ensures |states| == |cs|
  {
    seq(|cs|, i requires 0 <= i < |cs| => CommitmentState(cs[i], next + i))
  }

  /** A post-payment commitment that names at least one trusted guarantor. */
  predicate NeedsGuarantee(s: CommitmentState) {
    RequiresGuarantee(s.commitment)
  }

  /** The states that need a guarantee, in their order. */
  function ToGuarantee(states: seq<CommitmentState>): (tg: seq<CommitmentState>)
    ensures |tg| <= |states|
    ensures AllNeedGuarantee(tg)
  {
    if states == [] then []
    else (if NeedsGuarantee(states[0]) then [states[0]] else []) + ToGuarantee(states[1..])
  }

  /** The states kept are exactly those needing a guarantee. */
  lemma {:induction false} ToGuaranteeMembers(states: seq<CommitmentState>)
    ensures forall t :: t in ToGuarantee(states) <==> t in states && NeedsGuarantee(t)
  {
    if states != [] {
      assert forall t :: t in states <==> t == states[0] || t in states[1..];
      ToGuaranteeMembers(states[1..]);
    }
  }

  /** The materialised offer needs as many guarantees as the offer itself counts. */
  lemma {:induction false} GuaranteeCount(cs: seq<Commitment>, next: Id)
    ensures |ToGuarantee(Materialise(cs, next))| == TripOffers.GuaranteesNeeded(cs)
  {
    if cs != [] {
      var states := Materialise(cs, next);
      assert states[1..] == Materialise(cs[1..], next + 1);
      GuaranteeCount(cs[1..], next + 1);
    }
  }

  /**
   * Why a commitment and the guarantee paired with it do not match: the
   * amount is compared first, then the guarantor is looked up among the
   * commitment's trusted guarantors.
   */
  function PairError(t: CommitmentState, g: PaymentGuaranteeState): (e: Option<FlowError>)
    requires NeedsGuarantee(t)
    ensures e == None <==> g.amount == t.commitment.amount && g.guarantor in t.commitment.payment.trustedGuarantors
    ensures g.amount != t.commitment.amount ==> e == Some(AmountMismatch)
  {
    if t.commitment.amount != g.amount then Some(AmountMismatch)
    else if g.guarantor !in t.commitment.payment.trustedGuarantors then Some(UntrustedGuarantor)
    else None
  }

  predicate AllNeedGuarantee(tg: seq<CommitmentState>) {
    forall i :: 0 <= i < |tg| ==> NeedsGuarantee(tg[i])
  }

  /** The pairs checked in order; the first mismatch stops the check. */
  function Pairing(tg: seq<CommitmentState>, gs: seq<PaymentGuaranteeState>): Outcome<FlowError>
    requires |tg| == |gs| && AllNeedGuarantee(tg)
  {
    if tg == [] then Pass
    else
      var n := |tg| - 1;
      match Pairing(tg[..n], gs[..n])
      case Fail(e) => Fail(e)
      case Pass =>
        match PairError(tg[n], gs[n])
        case Some(e) => Fail(e)
        case None => Pass
  }

  /**
   * The pairing passes exactly when every pair matches; when it fails, it
   * reports the mismatch of the first pair that does not match.
   */
  lemma {:induction false} PairingFirstMismatch(tg: seq<CommitmentState>, gs: seq<PaymentGuaranteeState>)
    requires |tg| == |gs| && AllNeedGuarantee(tg)
    ensures Pairing(tg, gs).Pass? <==> forall i :: 0 <= i < |tg| ==> PairError(tg[i], gs[i]) == None
    ensures Pairing(tg, gs).Fail? ==>
              exists i :: 0 <= i < |tg| && PairError(tg[i], gs[i]) == Some(Pairing(tg, gs).error) &&
                forall j :: 0 <= j < i ==> PairError(tg[j], gs[j]) == None
  {
    if tg != [] {
      var n := |tg| - 1;
      var tp, gp := tg[..n], gs[..n];
      assert forall i :: 0 <= i < n ==> tp[i] == tg[i] && gp[i] == gs[i];
      PairingFirstMismatch(tp, gp);
      if Pairing(tp, gp).Fail? {
        var i :| 0 <= i < n && PairError(tp[i], gp[i]) == Some(Pairing(tp, gp).error) &&
                 forall j :: 0 <= j < i ==> PairError(tp[j], gp[j]) == None;
        assert PairError(tg[i], gs[i]) != None;
      } else if Pairing(tg, gs).Fail? {
        assert PairError(tg[n], gs[n]) == Some(Pairing(tg, gs).error);
      }
    }
  }

  /** The obligation created for a commitment and the guarantee backing it. */
  function ObligationFor(t: CommitmentState, g: PaymentGuaranteeState, id: Id): PaymentObligationState {
    PaymentObligationState(
      payer := t.commitment.performer, guarantor := g.guarantor, reserveId := g.reserveId,
      beneficiary := t.commitment.acceptor, commitmentId := t.linearId, linearId := id)
  }

  /** One obligation per pair, with fresh identifiers from `next` on. */
  function Obligations(tg: seq<CommitmentState>, gs: seq<PaymentGuaranteeState>, next: Id): (os: seq<PaymentObligationState>)
    requires |tg| == |gs|
    ensures |os| == |tg|
    ensures forall i :: 0 <= i < |os| ==> os[i].linearId == next + i
  {
    seq(|tg|, i requires 0 <= i < |tg| => ObligationFor(tg[i], gs[i], next + i))
  }

  /** The guarantee records named by identifiers that all name guarantees. */
  function GuaranteesOf(m: map<Id, Record>, ids: seq<Id>): (gs: seq<PaymentGuaranteeState>)
    requires AllOfKind(m, ids, GuaranteeKind)
    ensures |gs| == |ids|
  {
    seq(|ids|, i requires 0 <= i < |ids| => m[ids[i]].guarantee)
  }

  /** The guarantees an acceptance consumes and the obligations it creates. */
  datatype Plan = Plan(guarantees: seq<Id>, obligations: seq<PaymentObligationState>)

  /**
   * The guarantee side of an acceptance by `me`: nothing to do when no
   * commitment needs a guarantee; otherwise every named guarantee must be
   * unconsumed in `me`'s vault, they must be as many as the commitments
   * needing one, and each pair must match.
   */
  function ToConsumeAndCreate(m: map<Id, Record>, me: Party, states: seq<CommitmentState>, guaranteeIds: seq<Id>, next: Id)
    : (r: Result<Plan, FlowError>)
    ensures ToGuarantee(states) == [] ==> r == Success(Plan([], []))
    ensures r.Success? ==> |r.value.obligations| == |ToGuarantee(states)|
  {
    var tg := ToGuarantee(states);
    if tg == [] then Success(Plan([], []))
    else
      var fetched := FetchIds(m, guaranteeIds, me, GuaranteeKind);
      if |fetched| != |guaranteeIds| then Failure(GuaranteesUnavailable)
      else if |tg| != |fetched| then Failure(GuaranteeCountMismatch)
      else
        FetchAllIff(m, guaranteeIds, me, GuaranteeKind);
        var gs := GuaranteesOf(m, fetched);
        match Pairing(tg, gs)
        case Fail(e) => Failure(e)
        case Pass => Success(Plan(fetched, Obligations(tg, gs, next)))
  }

  function CommitmentIds(states: seq<CommitmentState>): seq<Id> {
    seq(|states|, i requires 0 <= i < |states| => states[i].linearId)
  }

  function ObligationIds(os: seq<PaymentObligationState>): seq<Id> {
    seq(|os|, i requires 0 <= i < |os| => os[i].linearId)
  }

  function CommitmentRecs(states: seq<CommitmentState>): (rs: seq<Record>)
    ensures |rs| == |states|
  {
    seq(|states|, i requires 0 <= i < |states| => CommitmentRec(states[i]))
  }

  function ObligationRecs(os: seq<PaymentObligationState>): (rs: seq<Record>)
    ensures |rs| == |os|
  {
    seq(|os|, i requires 0 <= i < |os| => ObligationRec(os[i]))
  }

  /** The agreement between the offeror and the offeree listing every commitment and obligation. */
  function AgreementFor(offer: Offer, states: seq<CommitmentState>, os: seq<PaymentObligationState>, id: Id)
    : ProvisionAgreementState
  {
    ProvisionAgreementState(offer.offeror, offer.offeree, CommitmentIds(states), ObligationIds(os), id)
  }

  /**
   * The acceptance transaction: the guarantees as inputs; the commitments,
   * the obligations and the agreement as outputs; the acceptance and the
   * confirmation of the offer as commands.
   */
  function AcceptTx(offer: Offer, guaranteeIds: seq<Id>, states: seq<CommitmentState>, plan: Plan,
                    agreement: ProvisionAgreementState): Transaction
  {
    Transaction(
      plan.guarantees,
      CommitmentRecs(states) + ObligationRecs(plan.obligations) + [AgreementRec(agreement)],
      [AcceptOfferCommand(offer, guaranteeIds), ConfirmOfferCommand(offer)])
  }

  /** What an acceptance commits: its transaction and the identifier of its agreement. */
  datatype Acceptance = Acceptance(tx: Transaction, agreementId: Id)

  /**
   * The acceptance of `offer` by `me` naming `guaranteeIds`, with fresh
   * identifiers from `next` on for the commitments, then the obligations,
   * then the agreement.
   */
  function Accept(m: map<Id, Record>, next: Id, me: Party, offer: Offer, guaranteeIds: seq<Id>)
    : (r: Result<Acceptance, FlowError>)
    ensures me != offer.offeree ==> r == Failure(NotOfferee)
  {
    if me != offer.offeree then Failure(NotOfferee)
    else
      var states := Materialise(offer.commitments, next);
      match ToConsumeAndCreate(m, me, states, guaranteeIds, next + |states|)
      case Failure(e) => Failure(e)
      case Success(plan) =>
        var id := next + |states| + |plan.obligations|;
        Success(Acceptance(AcceptTx(offer, guaranteeIds, states, plan, AgreementFor(offer, states, plan.obligations, id)), id))
  }

  /** The parts an accepted offer is built from. */
  lemma AcceptParts(m: map<Id, Record>, next: Id, offer: Offer, guaranteeIds: seq<Id>)
    returns (states: seq<CommitmentState>, plan: Plan)
    requires Accept(m, next, offer.offeree, offer, guaranteeIds).Success?
    ensures states == Materialise(offer.commitments, next)
    ensures ToConsumeAndCreate(m, offer.offeree, states, guaranteeIds, next + |states|) == Success(plan)
    ensures var id := next + |states| + |plan.obligations|;
            Accept(m, next, offer.offeree, offer, guaranteeIds).value ==
              Acceptance(AcceptTx(offer, guaranteeIds, states, plan, AgreementFor(offer, states, plan.obligations, id)), id)
  {
    states := Materialise(offer.commitments, next);
    plan := ToConsumeAndCreate(m, offer.offeree, states, guaranteeIds, next + |states|).value;
  }

  /** The guarantee side of a successful acceptance that needs guarantees: the named guarantees, paired in order. */
  lemma PlanWithGuarantees(m: map<Id, Record>, me: Party, states: seq<CommitmentState>, guaranteeIds: seq<Id>, next: Id)
    requires ToGuarantee(states) != []
    requires ToConsumeAndCreate(m, me, states, guaranteeIds, next).Success?
    ensures var plan := ToConsumeAndCreate(m, me, states, guaranteeIds, next).value;
            var tg := ToGuarantee(states);
            AllOfKind(m, guaranteeIds, GuaranteeKind) && |tg| == |guaranteeIds| &&
            plan.guarantees == guaranteeIds &&
            Pairing(tg, GuaranteesOf(m, guaranteeIds)).Pass? &&
            plan.obligations == Obligations(tg, GuaranteesOf(m, guaranteeIds), next)
  {
    FetchAllIff(m, guaranteeIds, me, GuaranteeKind);
  }

  /** The obligations of a successful acceptance take consecutive identifiers from `next` on. */
  lemma PlanObligationIds(m: map<Id, Record>, me: Party, states: seq<CommitmentState>, guaranteeIds: seq<Id>, next: Id)
    requires ToConsumeAndCreate(m, me, states, guaranteeIds, next).Success?
    ensures var os := ToConsumeAndCreate(m, me, states, guaranteeIds, next).value.obligations;
            forall i :: 0 <= i < |os| ==> os[i].linearId == next + i
  {
    var tg := ToGuarantee(states);
    if tg != [] {
      PlanWithGuarantees(m, me, states, guaranteeIds, next);
    }
  }

  /**
   * The outputs of an acceptance transaction built from the materialised
   * commitments: the commitments, then the obligations, then the agreement
   * listing the identifiers of both.
   */
  lemma TxLayout(offer: Offer, guaranteeIds: seq<Id>, next: Id, states: seq<CommitmentState>, plan: Plan)
    requires states == Materialise(offer.commitments, next)
    ensures var id := next + |states| + |plan.obligations|;
            var outs := AcceptTx(offer, guaranteeIds, states, plan, AgreementFor(offer, states, plan.obligations, id)).outputs;
            var n := |states|;
            |outs| == n + |plan.obligations| + 1 &&
            (forall i :: 0 <= i < n ==> outs[i] == CommitmentRec(CommitmentState(offer.commitments[i], next + i))) &&
            (forall j :: n <= j < |outs| - 1 ==> outs[j] == ObligationRec(plan.obligations[j - n])) &&
            outs[|outs| - 1] == AgreementRec(ProvisionAgreementState(
              offer.offeror, offer.offeree, Ids(outs[..n]), Ids(outs[n..|outs| - 1]), id))
  {
    var n, k := |states|, |plan.obligations|;
    var id := next + n + k;
    var cr, orr := CommitmentRecs(states), ObligationRecs(plan.obligations);
    var outs := cr + orr + [AgreementRec(AgreementFor(offer, states, plan.obligations, id))];
    ThreeParts(cr, orr, AgreementRec(AgreementFor(offer, states, plan.obligations, id)));
    assert Ids(cr) == CommitmentIds(states);
    assert Ids(orr) == ObligationIds(plan.obligations);
    forall i | 0 <= i < n ensures outs[i] == CommitmentRec(CommitmentState(offer.commitments[i], next + i)) {
      assert outs[i] == cr[i];
    }
  }

  /** With the obligations numbered on from the commitments, the outputs take consecutive identifiers from `next` on. */
  lemma TxLayoutIds(offer: Offer, guaranteeIds: seq<Id>, next: Id, states: seq<CommitmentState>, plan: Plan)
    requires states == Materialise(offer.commitments, next)
    requires forall i :: 0 <= i < |plan.obligations| ==> plan.obligations[i].linearId == next + |states| + i
    ensures var id := next + |states| + |plan.obligations|;
            var outs := AcceptTx(offer, guaranteeIds, states, plan, AgreementFor(offer, states, plan.obligations, id)).outputs;
            |outs| == |states| + |plan.obligations| + 1 &&
            forall j :: 0 <= j < |outs| ==> LinearId(outs[j]) == next + j
  {
    var n, k := |states|, |plan.obligations|;
    var id := next + n + k;
    var cr, orr := CommitmentRecs(states), ObligationRecs(plan.obligations);
    var outs := cr + orr + [AgreementRec(AgreementFor(offer, states, plan.obligations, id))];
    ThreeParts(cr, orr, AgreementRec(AgreementFor(offer, states, plan.obligations, id)));
    forall j | 0 <= j < |outs| ensures LinearId(outs[j]) == next + j {
      if j < n {
        assert outs[j] == cr[j];
      } else if j < n + k {
        assert outs[j] == orr[j - n];
      }
    }
  }

  /** The three parts of a sequence of outputs: a prefix, a middle and one last record. */
  lemma ThreeParts(a: seq<Record>, b: seq<Record>, last: Record)
    ensures var outs := a + b + [last];
            |outs| == |a| + |b| + 1 &&
            outs[..|a|] == a && outs[|a|..|outs| - 1] == b && outs[|outs| - 1] == last &&
            (forall i :: 0 <= i < |a| ==> outs[i] == a[i]) &&
            (forall j :: |a| <= j < |a| + |b| ==> outs[j] == b[j - |a|])
  {
    var outs := a + b + [last];
    assert outs[..|a|] == a;
    assert outs[|a|..|outs| - 1] == b;
  }

  /**
   * An accepted offer's outputs: each commitment, in order, as a record of
   * the same kind; then obligations only; then exactly one agreement, between
   * the offeror and the offeree, which lists the commitment identifiers and
   * the obligation identifiers in order and whose identifier is returned.
   */
  lemma AcceptOutputs(m: map<Id, Record>, next: Id, offer: Offer, guaranteeIds: seq<Id>)
    requires Accept(m, next, offer.offeree, offer, guaranteeIds).Success?
    ensures var a := Accept(m, next, offer.offeree, offer, guaranteeIds).value;
            var outs := a.tx.outputs;
            var n := |offer.commitments|;
            |outs| > n &&
            (forall i :: 0 <= i < n ==> outs[i] == CommitmentRec(CommitmentState(offer.commitments[i], next + i))) &&
            (forall j :: n <= j < |outs| - 1 ==> outs[j].ObligationRec?) &&
            (forall j :: 0 <= j < |outs| - 1 ==> !outs[j].AgreementRec?) &&
            outs[|outs| - 1] == AgreementRec(ProvisionAgreementState(
              offer.offeror, offer.offeree, Ids(outs[..n]), Ids(outs[n..|outs| - 1]), a.agreementId))
  {
    var states, plan := AcceptParts(m, next, offer, guaranteeIds);
    TxLayout(offer, guaranteeIds, next, states, plan);
  }

  /**
   * An accepted offer's outputs take consecutive fresh identifiers from
   * `next` on, the last being the agreement's; the transaction carries the
   * acceptance and the confirmation of the offer.
   */
  lemma AcceptOutputIds(m: map<Id, Record>, next: Id, offer: Offer, guaranteeIds: seq<Id>)
    requires Accept(m, next, offer.offeree, offer, guaranteeIds).Success?
    ensures var a := Accept(m, next, offer.offeree, offer, guaranteeIds).value;
            |a.tx.outputs| > 0 &&
            a.agreementId == next + |a.tx.outputs| - 1 &&
            (forall j :: 0 <= j < |a.tx.outputs| ==> LinearId(a.tx.outputs[j]) == next + j) &&
            a.tx.commands == [AcceptOfferCommand(offer, guaranteeIds), ConfirmOfferCommand(offer)]
  {
    var states, plan := AcceptParts(m, next, offer, guaranteeIds);
    PlanObligationIds(m, offer.offeree, states, guaranteeIds, next + |states|);
    TxLayoutIds(offer, guaranteeIds, next, states, plan);
  }

  /**
   * An offer none of whose commitments needs a guarantee is accepted by its
   * offeree whatever guarantees are named: nothing is consumed and no
   * obligation is created.
   */
  lemma AcceptWithoutGuarantees(m: map<Id, Record>, next: Id, offer: Offer, guaranteeIds: seq<Id>)
    requires TripOffers.GuaranteesNeeded(offer.commitments) == 0
    ensures var r := Accept(m, next, offer.offeree, offer, guaranteeIds);
            r.Success? && r.value.tx.inputs == [] && |r.value.tx.outputs| == |offer.commitments| + 1
  {
    GuaranteeCount(offer.commitments, next);
  }

  /** The named guarantees are distinct, unconsumed in the vault of `me`, and pair one to one with `tg`. */
  predicate GuaranteesMatch(m: map<Id, Record>, me: Party, tg: seq<CommitmentState>, guaranteeIds: seq<Id>)
    requires AllNeedGuarantee(tg)
  {
    Distinct(guaranteeIds) &&
    (forall i :: 0 <= i < |guaranteeIds| ==> Found(m, guaranteeIds[i], me, GuaranteeKind)) &&
    |guaranteeIds| == |tg| &&
    forall i :: 0 <= i < |tg| ==> PairError(tg[i], m[guaranteeIds[i]].guarantee) == None
  }

  /** The guarantee side succeeds, when some commitment needs a guarantee, exactly when the named guarantees match. */
  lemma PlanSucceedsIff(m: map<Id, Record>, me: Party, states: seq<CommitmentState>, guaranteeIds: seq<Id>, next: Id)
    requires ToGuarantee(states) != []
    ensures ToConsumeAndCreate(m, me, states, guaranteeIds, next).Success? <==>
            GuaranteesMatch(m, me, ToGuarantee(states), guaranteeIds)
  {
    var tg := ToGuarantee(states);
    FetchAllIff(m, guaranteeIds, me, GuaranteeKind);
    if |FetchIds(m, guaranteeIds, me, GuaranteeKind)| == |guaranteeIds| && |tg| == |guaranteeIds| {
      PlanPairs(m, me, states, guaranteeIds, next);
    } else {
      assert !GuaranteesMatch(m, me, tg, guaranteeIds);
    }
  }

  /** With every named guarantee found, one per commitment needing one, the plan stands or falls with the pairing. */
  lemma PlanPairs(m: map<Id, Record>, me: Party, states: seq<CommitmentState>, guaranteeIds: seq<Id>, next: Id)
    requires ToGuarantee(states) != []
    requires |FetchIds(m, guaranteeIds, me, GuaranteeKind)| == |guaranteeIds| == |ToGuarantee(states)|
    ensures ToConsumeAndCreate(m, me, states, guaranteeIds, next).Success? <==>
            GuaranteesMatch(m, me, ToGuarantee(states), guaranteeIds)
  {
    var tg := ToGuarantee(states);
    PlanIsPairing(m, me, states, guaranteeIds, next);
    var gs := GuaranteesOf(m, guaranteeIds);
    PairingFirstMismatch(tg, gs);
    if Pairing(tg, gs).Pass? {
      forall i | 0 <= i < |tg| ensures PairError(tg[i], m[guaranteeIds[i]].guarantee) == None {
        assert gs[i] == m[guaranteeIds[i]].guarantee;
      }
    }
    if GuaranteesMatch(m, me, tg, guaranteeIds) {
      forall i | 0 <= i < |tg| ensures PairError(tg[i], gs[i]) == None {
        assert gs[i] == m[guaranteeIds[i]].guarantee;
      }
    }
  }

  lemma PlanIsPairing(m: map<Id, Record>, me: Party, states: seq<CommitmentState>, guaranteeIds: seq<Id>, next: Id)
    requires ToGuarantee(states) != []
    requires |FetchIds(m, guaranteeIds, me, GuaranteeKind)| == |guaranteeIds| == |ToGuarantee(states)|
    ensures AllOfKind(m, guaranteeIds, GuaranteeKind)
    ensures Distinct(guaranteeIds) && forall i :: 0 <= i < |guaranteeIds| ==> Found(m, guaranteeIds[i], me, GuaranteeKind)
    ensures ToConsumeAndCreate(m, me, states, guaranteeIds, next).Success? <==>
            Pairing(ToGuarantee(states), GuaranteesOf(m, guaranteeIds)).Pass?
  {
    FetchAllIff(m, guaranteeIds, me, GuaranteeKind);
  }

  /**
   * When some commitment needs a guarantee, the offeree's acceptance goes
   * through exactly when the named guarantees are distinct, unconsumed in its
   * vault, as many as the commitments needing one, and each matches its
   * commitment's amount and trusted guarantors; the guarantees are then the
   * only inputs.
   */
  lemma AcceptWithGuaranteesIff(m: map<Id, Record>, next: Id, offer: Offer, guaranteeIds: seq<Id>)
    requires TripOffers.GuaranteesNeeded(offer.commitments) > 0
    ensures var r := Accept(m, next, offer.offeree, offer, guaranteeIds);
            r.Success? <==> GuaranteesMatch(m, offer.offeree, ToGuarantee(Materialise(offer.commitments, next)), guaranteeIds)
    ensures var r := Accept(m, next, offer.offeree, offer, guaranteeIds);
            r.Success? ==> r.value.tx.inputs == guaranteeIds
  {
    var states := Materialise(offer.commitments, next);
    GuaranteeCount(offer.commitments, next);
    PlanSucceedsIff(m, offer.offeree, states, guaranteeIds, next + |states|);
    if Accept(m, next, offer.offeree, offer, guaranteeIds).Success? {
      var states', plan := AcceptParts(m, next, offer, guaranteeIds);
      PlanWithGuarantees(m, offer.offeree, states, guaranteeIds, next + |states|);
    }
  }

  /** Obligation `i` of a successful guarantee side comes from pair `i`. */
  lemma PlanObligation(m: map<Id, Record>, me: Party, states: seq<CommitmentState>, guaranteeIds: seq<Id>, next: Id, i: nat)
    requires ToConsumeAndCreate(m, me, states, guaranteeIds, next).Success?
    requires i < |ToGuarantee(states)|
    ensures var tg := ToGuarantee(states);
            var os := ToConsumeAndCreate(m, me, states, guaranteeIds, next).value.obligations;
            i < |guaranteeIds| && guaranteeIds[i] in m && m[guaranteeIds[i]].GuaranteeRec? &&
            i < |os| && os[i] == ObligationFor(tg[i], m[guaranteeIds[i]].guarantee, next + i)
  {
    PlanWithGuarantees(m, me, states, guaranteeIds, next);
  }

  /** Where the `i`-th state needing a guarantee sits among all the states. */
  lemma ToGuaranteeIndex(states: seq<CommitmentState>, i: nat) returns (j: nat)
    requires i < |ToGuarantee(states)|
    ensures j < |states| && states[j] == ToGuarantee(states)[i]
  {
    ToGuaranteeMembers(states);
    assert ToGuarantee(states)[i] in states;
    j :| 0 <= j < |states| && states[j] == ToGuarantee(states)[i];
  }

  /**
   * Obligation `i` of an accepted offer: payer and beneficiary are those of
   * the `i`-th commitment needing a guarantee, guarantor and reserve those of
   * the `i`-th named guarantee, and it refers to that commitment's record,
   * which is among the outputs.
   */
  lemma AcceptedObligation(m: map<Id, Record>, next: Id, offer: Offer, guaranteeIds: seq<Id>, i: nat)
    requires Accept(m, next, offer.offeree, offer, guaranteeIds).Success?
    requires i < TripOffers.GuaranteesNeeded(offer.commitments)
    ensures var tg := ToGuarantee(Materialise(offer.commitments, next));
            var outs := Accept(m, next, offer.offeree, offer, guaranteeIds).value.tx.outputs;
            var n := |offer.commitments|;
            i < |tg| && i < |guaranteeIds| && guaranteeIds[i] in m && m[guaranteeIds[i]].GuaranteeRec? && n + i < |outs| &&
            outs[n + i] == ObligationRec(ObligationFor(tg[i], m[guaranteeIds[i]].guarantee, next + n + i)) &&
            CommitmentRec(tg[i]) in outs[..n]
  {
    var states, plan := AcceptParts(m, next, offer, guaranteeIds);
    var n := |states|;
    GuaranteeCount(offer.commitments, next);
    PlanObligation(m, offer.offeree, states, guaranteeIds, next + n, i);
    var j := ToGuaranteeIndex(states, i);
    var tg := ToGuarantee(states);
    var id := next + n + |plan.obligations|;
    AcceptTxHolds(offer, guaranteeIds, states, plan, id, i, j);
    var outs := Accept(m, next, offer.offeree, offer, guaranteeIds).value.tx.outputs;
    assert outs == AcceptTx(offer, guaranteeIds, states, plan, AgreementFor(offer, states, plan.obligations, id)).outputs;
    assert plan.obligations[i] == ObligationFor(tg[i], m[guaranteeIds[i]].guarantee, next + n + i);
    assert states[j] == tg[i];
  }

  /** The acceptance transaction holds obligation `i` right after the commitments, and commitment `j` among them. */
  lemma AcceptTxHolds(offer: Offer, guaranteeIds: seq<Id>, states: seq<CommitmentState>, plan: Plan, id: Id, i: nat, j: nat)
    requires i < |plan.obligations| && j < |states|
    ensures var outs := AcceptTx(offer, guaranteeIds, states, plan, AgreementFor(offer, states, plan.obligations, id)).outputs;
            |states| + i < |outs| &&
            outs[|states| + i] == ObligationRec(plan.obligations[i]) &&
            CommitmentRec(states[j]) in outs[..|states|]
  {
    var cr, orr := CommitmentRecs(states), ObligationRecs(plan.obligations);
    ThreeParts(cr, orr, AgreementRec(AgreementFor(offer, states, plan.obligations, id)));
    assert orr[i] == ObligationRec(plan.obligations[i]);
    assert cr[j] == CommitmentRec(states[j]);
  }
}
