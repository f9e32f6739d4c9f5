/**
 * The flows as they run against the shared ledger: each checks what its
 * nodes check, assembles its transaction step by step and commits it, or
 * stops with the reason and leaves the ledger as it was. Signing,
 * notarisation and finality together are one atomic commit.
 */
module LedgerFlows {
  import opened Wrappers
  import opened Commitments
  import opened MonetaryStates
  import opened LedgerRecords
  import opened GuaranteeFlows
  import opened OfferAcceptance
  import OfferingService
  import Time

  /** The unconsumed records of all vaults, and the next fresh linear identifier. */
  class Ledger {
    var unconsumed: map<Id, Record>
    var nextId: Id

    predicate Valid()
      reads this
    {
      WellFormed(unconsumed, nextId)
    }

    constructor ()
      ensures unconsumed == map[] && nextId == 0
      ensures Valid()
    {
      unconsumed := map[];
      nextId := 0;
    }

    /**
     * Finality: the inputs of `tx` are consumed, its outputs recorded, and
     * `created` fresh identifiers are used up.
     */
    method Commit(tx: Transaction, created: nat)
      requires Valid()
      requires forall j :: 0 <= j < |tx.outputs| ==> LinearId(tx.outputs[j]) < nextId + created
      modifies this
      ensures unconsumed == Applied(old(unconsumed), tx) && nextId == old(nextId) + created
      ensures Valid()
    {
      AppliedWellFormed(unconsumed, tx, nextId, nextId + created);
      unconsumed := Applied(unconsumed, tx);
      nextId := nextId + created;
    }

    /**
     * `MockInitAccountFlow`: the operator opens an account for `owner` with
     * `initialAmount`, held in the operator's vault, and returns its identifier.
     */
    method InitAccount(owner: Party, operator: Party, initialAmount: int) returns (id: Id)
      requires Valid() && initialAmount > 0
      modifies this
      ensures id == old(nextId) && nextId == old(nextId) + 1
      ensures unconsumed == old(unconsumed)[id := AccountRec(AccountState(owner, initialAmount, [operator], id))]
      ensures Valid()
    {
      id := nextId;
      var account := AccountState(owner, initialAmount, [operator], id);
      var tx := Transaction([], [AccountRec(account)], [MockInitAccountCommand(owner, operator, initialAmount)]);
      AppliedCreating(unconsumed, AccountRec(account), tx.commands);
      Commit(tx, 1);
    }

    /**
     * `ObtainPaymentGuaranteesFlow`: the requester checks the amounts, the
     * guarantor looks up the account, debits it, and adds a reserve and a
     * guarantee per amount; the requester gets the guarantee identifiers in
     * output order.
     */
    method ObtainPaymentGuarantees(requester: Party, guarantor: Party, account: Id, amounts: seq<int>)
      returns (result: Result<seq<Id>, FlowError>)
      requires Valid()
      modifies this
      ensures Valid()
      ensures var spec := Obtain(old(unconsumed), old(nextId), requester, guarantor, account, amounts);
              match spec
              case Success(tx) =>
                result == Success(GuaranteeIds(amounts, old(nextId))) &&
                unconsumed == Applied(old(unconsumed), tx) && nextId == old(nextId) + 2 * |amounts|
              case Failure(e) =>
                result == Failure(e) && unconsumed == old(unconsumed) && nextId == old(nextId)
    {
      if amounts == [] {
        return Failure(NothingToGuarantee);
      }
      for i := 0 to |amounts|
        invariant forall j :: 0 <= j < i ==> amounts[j] > 0
      {
        if amounts[i] <= 0 {
          return Failure(NonPositiveAmount);
        }
      }
      var found := FetchIds(unconsumed, [account], guarantor, AccountKind);
      FetchAllIff(unconsumed, [account], guarantor, AccountKind);
      if |found| != 1 {
        return Failure(AccountNotFound);
      }
      var acct := unconsumed[account].account;
      var next := nextId;
      var created, ids := CreateReservesAndGuarantees(account, requester, guarantor, amounts, next);
      var outputs := [AccountRec(acct.(amount := acct.amount - Sum(amounts)))] + created;
      var tx := Transaction([account], outputs, [GuaranteePaymentsCommand(account, amounts)]);
      assert tx == ObtainTx(acct, requester, guarantor, amounts, next);
      GuaranteeOutputIds(account, requester, guarantor, amounts, next);
      GuaranteeOutputsLayout(account, requester, guarantor, amounts, next);
      assert LinearId(outputs[0]) == account < next;
      assert forall j :: 1 <= j < |outputs| ==> outputs[j] == created[j - 1];
      Commit(tx, 2 * |amounts|);
      result := Success(ids);
    }

    /**
     * The guarantor's loop over the amounts: a reserve of the amount on
     * `account`, then a guarantee backed by it, each with the next fresh
     * identifier; the guarantee identifiers are collected as they appear.
     */
    static method CreateReservesAndGuarantees(account: Id, requester: Party, guarantor: Party, amounts: seq<int>, next: Id)
      returns (outputs: seq<Record>, ids: seq<Id>)
      ensures outputs == GuaranteeOutputs(account, requester, guarantor, amounts, next)
      ensures ids == GuaranteeIds(amounts, next)
    {
      outputs, ids := [], [];
      for i := 0 to |amounts|
        invariant outputs == GuaranteeOutputs(account, requester, guarantor, amounts[..i], next)
        invariant ids == GuaranteeIds(amounts[..i], next)
      {
        var reserve := ReserveFor(account, guarantor, amounts[i], next + 2 * i);
        var guarantee := GuaranteeFor(requester, guarantor, amounts[i], next + 2 * i, next + 2 * i + 1);
        assert amounts[..i + 1][..i] == amounts[..i];
        outputs := outputs + [reserve, guarantee];
        ids := ids + [next + 2 * i + 1];
      }
      assert amounts[..|amounts|] == amounts;
    }

    /**
     * `RevokePaymentGuaranteesFlow`: the requester looks up the guarantees,
     * the guarantor looks up their reserves and the accounts behind those,
     * consumes all three and re-creates each account credited with the sum
     * of its reserves.
     */
    method RevokePaymentGuarantees(requester: Party, guarantor: Party, gids: seq<Id>) returns (outcome: Outcome<FlowError>)
      requires Valid()
      modifies this
      ensures Valid() && nextId == old(nextId)
      ensures var spec := Revoke(old(unconsumed), requester, guarantor, gids);
              match spec
              case Success(tx) => outcome == Pass && unconsumed == Applied(old(unconsumed), tx)
              case Failure(e) => outcome == Fail(e) && unconsumed == old(unconsumed)
    {
      if gids == [] {
        return Fail(NothingToRevoke);
      }
      var guarantees := FetchIds(unconsumed, gids, requester, GuaranteeKind);
      if |guarantees| != |gids| {
        return Fail(GuaranteesConsumed);
      }
      FetchAllIff(unconsumed, gids, requester, GuaranteeKind);
      var rids := ReserveIdsOf(unconsumed, gids);
      var reserves := FetchIds(unconsumed, rids, guarantor, ReserveKind);
      if |reserves| != |rids| {
        return Fail(ReservesConsumed);
      }
      FetchAllIff(unconsumed, rids, guarantor, ReserveKind);
      var aids := AccountsOf(unconsumed, rids);
      var accounts := FetchIds(unconsumed, aids, guarantor, AccountKind);
      if |accounts| != |aids| {
        return Fail(AccountsConsumed);
      }
      FetchAllIff(unconsumed, aids, guarantor, AccountKind);
      assert accounts == aids;
      var outputs := CreditAccounts(rids, accounts);
      var tx := Transaction(gids + rids + aids, outputs, [RevokePaymentGuaranteesCommand]);
      assert Revoke(unconsumed, requester, guarantor, gids) == Success(tx);
      forall j | 0 <= j < |outputs| ensures LinearId(outputs[j]) < nextId {
        assert LinearId(unconsumed[aids[j]]) == aids[j];
      }
      Commit(tx, 0);
      outcome := Pass;
    }

    /** The guarantor's outputs: each account, in order, re-created with what `rids` reserved on it added back. */
    method CreditAccounts(rids: seq<Id>, accounts: seq<Id>) returns (outputs: seq<Record>)
      requires AllOfKind(unconsumed, rids, ReserveKind) && AllOfKind(unconsumed, accounts, AccountKind)
      ensures outputs == RevokeOutputs(unconsumed, rids, accounts)
    {
      outputs := [];
      for i := 0 to |accounts|
        invariant |outputs| == i
        invariant forall k :: 0 <= k < i ==> outputs[k] == Credited(unconsumed, rids, accounts[k])
      {
        var acct := unconsumed[accounts[i]].account;
        outputs := outputs + [AccountRec(acct.(amount := acct.amount + ReservedFor(unconsumed, rids, accounts[i])))];
      }
    }

    /**
     * `obligationsToCreateAndGuaranteesToConsume`: when some commitment needs
     * a guarantee, fetch the named guarantees from the vault of `me`, check
     * their number, then pair them with the commitments.
     */
    method ObligationsToCreateAndGuaranteesToConsume(states: seq<CommitmentState>, guaranteeIds: seq<Id>, me: Party, next: Id)
      returns (r: Result<Plan, FlowError>)
      ensures r == ToConsumeAndCreate(unconsumed, me, states, guaranteeIds, next)
    {
      var toGuarantee := ToGuarantee(states);
      if toGuarantee == [] {
        return Success(Plan([], []));
      }
      var fetched := FetchIds(unconsumed, guaranteeIds, me, GuaranteeKind);
      if |fetched| != |guaranteeIds| {
        return Failure(GuaranteesUnavailable);
      }
      if |toGuarantee| != |fetched| {
        return Failure(GuaranteeCountMismatch);
      }
      FetchAllIff(unconsumed, guaranteeIds, me, GuaranteeKind);
      var obligations := CollectObligations(toGuarantee, fetched, next);
      match obligations
      case Failure(e) => r := Failure(e);
      case Success(os) => r := Success(Plan(fetched, os));
    }

    /**
     * The loop over the pairs: each commitment is checked against its
     * guarantee, amount first, and its obligation collected; the first
     * mismatch stops the loop.
     */
    method CollectObligations(toGuarantee: seq<CommitmentState>, fetched: seq<Id>, next: Id)
      returns (r: Result<seq<PaymentObligationState>, FlowError>)
      requires AllOfKind(unconsumed, fetched, GuaranteeKind) && |toGuarantee| == |fetched| && AllNeedGuarantee(toGuarantee)
      ensures var gs := GuaranteesOf(unconsumed, fetched);
              match Pairing(toGuarantee, gs)
              case Fail(e) => r == Failure(e)
              case Pass => r == Success(Obligations(toGuarantee, gs, next))
    {
      ghost var gs := GuaranteesOf(unconsumed, fetched);
      PairingFirstMismatch(toGuarantee, gs);
      var obligations := [];
      for i := 0 to |fetched|
        invariant |obligations| == i
        invariant forall k :: 0 <= k < i ==> PairError(toGuarantee[k], gs[k]) == None
        invariant forall k :: 0 <= k < i ==> obligations[k] == ObligationFor(toGuarantee[k], gs[k], next + k)
      {
        var commitment := toGuarantee[i].commitment;
        var guarantee := unconsumed[fetched[i]].guarantee;
        assert guarantee == gs[i];
        if commitment.amount != guarantee.amount {
          return Failure(AmountMismatch);
        }
        if guarantee.guarantor !in commitment.payment.trustedGuarantors {
          return Failure(UntrustedGuarantor);
        }
        obligations := obligations + [PaymentObligationState(
          payer := commitment.performer, guarantor := guarantee.guarantor, reserveId := guarantee.reserveId,
          beneficiary := commitment.acceptor, commitmentId := toGuarantee[i].linearId, linearId := next + i)];
      }
      assert obligations == Obligations(toGuarantee, gs, next);
      r := Success(obligations);
    }

    /**
     * The composing step of `AcceptOfferFlow` at the offeree `me`: the
     * commitments are materialised with fresh identifiers, the guarantees
     * and obligations worked out, and the transaction assembled.
     */
    method ComposeAcceptance(me: Party, offer: Offer, guaranteeIds: seq<Id>) returns (r: Result<Acceptance, FlowError>)
      ensures r == Accept(unconsumed, nextId, me, offer, guaranteeIds)
    {
      if me != offer.offeree {
        return Failure(NotOfferee);
      }
      var states := Materialise(offer.commitments, nextId);
      var plan := ObligationsToCreateAndGuaranteesToConsume(states, guaranteeIds, me, nextId + |states|);
      if plan.Failure? {
        return Failure(plan.error);
      }
      var obligations := plan.value.obligations;
      var agreementId := nextId + |states| + |obligations|;
      var agreement := AgreementFor(offer, states, obligations, agreementId);
      var outputs := AssembleOutputs(states, obligations, agreement);
      var tx := Transaction(plan.value.guarantees, outputs, [AcceptOfferCommand(offer, guaranteeIds), ConfirmOfferCommand(offer)]);
      r := Success(Acceptance(tx, agreementId));
    }

    /** The outputs added to the transaction builder: the commitments, then the obligations, then the agreement. */
    static method AssembleOutputs(states: seq<CommitmentState>, obligations: seq<PaymentObligationState>,
                                  agreement: ProvisionAgreementState) returns (outputs: seq<Record>)
      ensures outputs == CommitmentRecs(states) + ObligationRecs(obligations) + [AgreementRec(agreement)]
    {
      outputs := [];
      for i := 0 to |states|
        invariant |outputs| == i
        invariant forall k :: 0 <= k < i ==> outputs[k] == CommitmentRec(states[k])
      {
        outputs := outputs + [CommitmentRec(states[i])];
      }
      for i := 0 to |obligations|
        invariant |outputs| == |states| + i
        invariant forall k :: 0 <= k < |states| ==> outputs[k] == CommitmentRec(states[k])
        invariant forall k :: 0 <= k < i ==> outputs[|states| + k] == ObligationRec(obligations[k])
      {
        outputs := outputs + [ObligationRec(obligations[i])];
      }
      outputs := outputs + [AgreementRec(agreement)];
    }

    /**
     * `AcceptOfferFlow`: the offeree composes the acceptance, then has the
     * offeror's offering service confirm the filtered transaction, which
     * shows only the confirmation command signed by both sides; once
     * confirmed the transaction is committed and the agreement's identifier
     * returned.
     */
    method AcceptOffer(me: Party, offer: Offer, guaranteeIds: seq<Id>,
                       service: OfferingService.ProvisionOfferingService, now: int)
      returns (result: Result<Id, FlowError>)
      requires Valid()
      modifies this, service.verificationCache
      ensures Valid()
      ensures var spec := Accept(old(unconsumed), old(nextId), me, offer, guaranteeIds);
              var confirmed := service.myKey in {offer.offeree, offer.offeror} &&
                OfferingService.Accepts(old(service.verificationCache.hashesByExpTime), offer, service.verificationCache.hash, now);
              match spec
              case Failure(e) =>
                result == Failure(e) && unconsumed == old(unconsumed) && nextId == old(nextId)
              case Success(a) =>
                if confirmed then
                  result == Success(a.agreementId) &&
                  unconsumed == Applied(old(unconsumed), a.tx) && nextId == a.agreementId + 1
                else
                  result == Failure(ConfirmationRefused) && unconsumed == old(unconsumed) && nextId == old(nextId)
      ensures OfferingService.Purged(service.verificationCache.hashesByExpTime, Time.TruncToSecond(now)) ==
              OfferingService.Purged(old(service.verificationCache.hashesByExpTime), Time.TruncToSecond(now))
    {
      var acceptance := ComposeAcceptance(me, offer, guaranteeIds);
      if acceptance.Failure? {
        return Failure(acceptance.error);
      }
      var confirmation := OfferingService.CommandComponent(ConfirmOfferCommand(offer), {me, offer.offeror});
      ghost var cache := service.verificationCache.hashesByExpTime;
      var signature := service.Sign([confirmation], now);
      assert [confirmation][0] == confirmation;
      assert signature.Success? <==>
             OfferingService.Confirms(confirmation, service.myKey, cache, service.verificationCache.hash, now);
      if signature.Failure? {
        return Failure(ConfirmationRefused);
      }
      AcceptOutputIds(unconsumed, nextId, offer, guaranteeIds);
      var agreementId := acceptance.value.agreementId;
      Commit(acceptance.value.tx, agreementId + 1 - nextId);
      result := Success(agreementId);
    }
  }

  /**
   * The transactions of the account flows carry exactly one account command,
   * so the account contract accepts them.
   */
  lemma AccountFlowsVerify(m: map<Id, Record>, requester: Party, guarantor: Party, gids: seq<Id>,
                           acct: AccountState, amounts: seq<int>, next: Id, owner: Party, operator: Party, initialAmount: int)
    ensures VerifyAccountContract([MockInitAccountCommand(owner, operator, initialAmount)]) == Pass
    ensures VerifyAccountContract(ObtainTx(acct, requester, guarantor, amounts, next).commands) == Pass
    ensures Revoke(m, requester, guarantor, gids).Success? ==>
              VerifyAccountContract(Revoke(m, requester, guarantor, gids).value.commands) == Pass
  {
  }
}
