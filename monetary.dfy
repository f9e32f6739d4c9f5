/**
 * The ledger records of the payment side (accounts, reserves, payment
 * guarantees and payment obligations), the commitment and agreement records
 * produced by offer acceptance, and the command dispatch of the account contract.
 */
module MonetaryStates {
  import opened Wrappers
  import opened Commitments

  /** A linear identifier; records that are re-versioned keep theirs. */
  type Id = nat

  /** A surrogate bank account owned by `owner`; `amount` is its balance or credit limit. */
  datatype AccountState = AccountState(owner: Party, amount: int, participants: seq<Party>, linearId: Id)

  /** Funds of `account` frozen to back one payment guarantee. */
  datatype ReserveState = ReserveState(account: Id, amount: int, participants: seq<Party>, linearId: Id)

  /** A guarantor's promise to `requester` that `amount` is covered by the reserve `reserveId`. */
  datatype PaymentGuaranteeState = PaymentGuaranteeState(
    requester: Party, guarantor: Party, amount: int, reserveId: Id, linearId: Id)

  /** Links an accepted guaranteed payment commitment to the reserve backing it. */
  datatype PaymentObligationState = PaymentObligationState(
    payer: Party, guarantor: Party, reserveId: Id, beneficiary: Party, commitmentId: Id, linearId: Id)

  /** A commitment of an accepted offer, materialised as a ledger record of the same kind. */
  datatype CommitmentState = CommitmentState(commitment: Commitment, linearId: Id)

  /** The terminal record of an accepted offer. */
  datatype ProvisionAgreementState = ProvisionAgreementState(
    provider: Party, consumer: Party, commitmentIds: seq<Id>, paymentObligationIds: seq<Id>, linearId: Id)

  /** The commands transactions carry. */
  datatype CommandData =
    | MockInitAccountCommand(owner: Party, operator: Party, initialAmount: int)
    | GuaranteePaymentsCommand(account: Id, amounts: seq<int>)
    | RevokePaymentGuaranteesCommand
    | ConfirmOfferCommand(offer: Offer)
    | AcceptOfferCommand(offer: Offer, guarantees: seq<Id>)

  datatype ContractError = NotSingleCommand | UnrecognizedCommand

  /** The commands the account contract knows about. */
  predicate IsAccountCommand(c: CommandData) {
    c.MockInitAccountCommand? || c.GuaranteePaymentsCommand? || c.RevokePaymentGuaranteesCommand?
  }

  /**
   * `AccountContract.verify`: the transaction must carry exactly one command, and
   * it must be one of the three account commands; nothing else is checked yet.
   */
  function VerifyAccountContract(commands: seq<CommandData>): (r: Outcome<ContractError>)
    ensures r.Pass? <==> |commands| == 1 && IsAccountCommand(commands[0])
    ensures |commands| != 1 ==> r == Fail(NotSingleCommand)
  {
    if |commands| != 1 then Fail(NotSingleCommand)
    else match commands[0]
      case MockInitAccountCommand(_, _, _) => Pass
      case GuaranteePaymentsCommand(_, _) => Pass
      case RevokePaymentGuaranteesCommand => Pass
      case _ => Fail(UnrecognizedCommand)
  }

  /** Every offer-side command is refused by the account contract, alone or not. */
  lemma AccountContractRefusesOfferCommands(offer: Offer, guarantees: seq<Id>)
    ensures VerifyAccountContract([ConfirmOfferCommand(offer)]) == Fail(UnrecognizedCommand)
    ensures VerifyAccountContract([AcceptOfferCommand(offer, guarantees)]) == Fail(UnrecognizedCommand)
    ensures VerifyAccountContract([AcceptOfferCommand(offer, guarantees), ConfirmOfferCommand(offer)]) == Fail(NotSingleCommand)
  {
  }
}
