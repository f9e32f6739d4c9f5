/**
 * The shared ledger seen by the flows: the unconsumed records keyed by their
 * linear identifiers, the vault query by identifiers each node runs against
 * it, and the effect of committing a transaction.
 */
module LedgerRecords {
  import opened Commitments
  import opened MonetaryStates

  /** Why a flow stops before committing anything. */
  datatype FlowError =
    | NothingToGuarantee      // an empty list of amounts
    | NonPositiveAmount       // an amount that is zero or negative
    | AccountNotFound         // the account is not exactly one unconsumed record of the guarantor
    | NothingToRevoke         // an empty list of guarantees
    | GuaranteesConsumed      // some requested guarantee is not unconsumed in the requester's vault
    | ReservesConsumed        // some reserve behind the guarantees is not unconsumed in the guarantor's vault
    | AccountsConsumed        // some account behind the reserves is not unconsumed in the guarantor's vault
    | NotOfferee              // the node accepting an offer is not its offeree
    | GuaranteesUnavailable   // some guarantee named for acceptance is not unconsumed in the offeree's vault
    | GuaranteeCountMismatch  // the guarantees do not pair one to one with the commitments needing them
    | AmountMismatch          // a guarantee's amount differs from its commitment's
    | UntrustedGuarantor      // a guarantee's guarantor is not trusted by its commitment
    | ConfirmationRefused     // the offeror's service refused to confirm the offer

  /** Every kind of record the flows put on the ledger. */
  datatype Record =
    | AccountRec(account: AccountState)
    | ReserveRec(reserve: ReserveState)
    | GuaranteeRec(guarantee: PaymentGuaranteeState)
    | ObligationRec(obligation: PaymentObligationState)
    | CommitmentRec(commitment: CommitmentState)
    | AgreementRec(agreement: ProvisionAgreementState)

  function LinearId(r: Record): Id {
    match r
    case AccountRec(a) => a.linearId
    case ReserveRec(s) => s.linearId
    case GuaranteeRec(g) => g.linearId
    case ObligationRec(o) => o.linearId
    case CommitmentRec(c) => c.linearId
    case AgreementRec(a) => a.linearId
  }

  /**
   * The parties whose vaults hold a record: the stored list for accounts and
   * reserves, the requester of a guarantee, the payer and beneficiary of an
   * obligation, both sides of a commitment and of an agreement.
   */
  function Participants(r: Record): (ps: seq<Party>)
    ensures r.GuaranteeRec? ==> ps == [r.guarantee.requester]
    ensures r.ObligationRec? ==> ps == [r.obligation.payer, r.obligation.beneficiary]
  {
    match r
    case AccountRec(a) => a.participants
    case ReserveRec(s) => s.participants
    case GuaranteeRec(g) => [g.requester]
    case ObligationRec(o) => [o.payer, o.beneficiary]
    case CommitmentRec(c) => [c.commitment.performer, c.commitment.acceptor]
    case AgreementRec(a) => [a.provider, a.consumer]
  }

  /** The record types the flows query for. */
  datatype Kind = AccountKind | ReserveKind | GuaranteeKind

  predicate OfKind(r: Record, k: Kind) {
    match k
    case AccountKind => r.AccountRec?
    case ReserveKind => r.ReserveRec?
    case GuaranteeKind => r.GuaranteeRec?
  }

  /** `id` names an unconsumed record of kind `k` in the vault of `node`. */
  predicate Found(m: map<Id, Record>, id: Id, node: Party, k: Kind) {
    id in m && OfKind(m[id], k) && node in Participants(m[id])
  }

  /** Every identifier of `ids` names an unconsumed record of kind `k`. */
  predicate AllOfKind(m: map<Id, Record>, ids: seq<Id>, k: Kind) {
    forall i :: 0 <= i < |ids| ==> ids[i] in m && OfKind(m[ids[i]], k)
  }

  predicate Distinct(ids: seq<Id>) {
    forall i, j :: 0 <= i < j < |ids| ==> ids[i] != ids[j]
  }

  /**
   * A vault query by linear identifiers on the vault of `node`: the
   * identifiers that name an unconsumed record of kind `k` there, each once,
   * in the order they are first requested.
   */
  function FetchIds(m: map<Id, Record>, ids: seq<Id>, node: Party, k: Kind): (found: seq<Id>)
    ensures |found| <= |ids|
    ensures Distinct(found)
    ensures forall x :: x in found <==> x in ids && Found(m, x, node, k)
  {
    if ids == [] then []
    else
      var last := ids[|ids| - 1];
      var init := ids[..|ids| - 1];
      assert forall x :: x in ids <==> x in init || x == last;
      var found := FetchIds(m, init, node, k);
      if Found(m, last, node, k) && last !in found then found + [last] else found
  }

  /**
   * A query returns as many records as identifiers were asked for exactly
   * when the identifiers are distinct and all of them are found; the result
   * is then the request itself.
   */
  lemma {:induction false} FetchAllIff(m: map<Id, Record>, ids: seq<Id>, node: Party, k: Kind)
    ensures |FetchIds(m, ids, node, k)| == |ids| <==>
            Distinct(ids) && forall i :: 0 <= i < |ids| ==> Found(m, ids[i], node, k)
    ensures |FetchIds(m, ids, node, k)| == |ids| ==> FetchIds(m, ids, node, k) == ids && AllOfKind(m, ids, k)
  {
    if ids != [] {
      var n := |ids| - 1;
      var last, init := ids[n], ids[..n];
      assert ids == init + [last];
      FetchAllIff(m, init, node, k);
      var found := FetchIds(m, init, node, k);
      if |FetchIds(m, ids, node, k)| == |ids| {
        assert FetchIds(m, ids, node, k) == found + [last];
        assert found == init;
      }
      if Distinct(ids) && forall i :: 0 <= i < |ids| ==> Found(m, ids[i], node, k) {
        assert forall i :: 0 <= i < n ==> Found(m, init[i], node, k) by {
          forall i | 0 <= i < n ensures Found(m, init[i], node, k) {
            assert init[i] == ids[i];
          }
        }
        assert Found(m, last, node, k);
        assert last !in init by {
          forall i | 0 <= i < n ensures init[i] != last {
            assert init[i] == ids[i];
          }
        }
      }
    }
  }

  /** A transaction: the records it consumes, the records it creates and the commands it carries. */
  datatype Transaction = Transaction(inputs: seq<Id>, outputs: seq<Record>, commands: seq<CommandData>)

  /** The records of `m` with `outputs` added, each under its linear identifier. */
  function Added(m: map<Id, Record>, outputs: seq<Record>): map<Id, Record> {
    if outputs == [] then m
    else
      var last := outputs[|outputs| - 1];
      Added(m, outputs[..|outputs| - 1])[LinearId(last) := last]
  }

  /** The unconsumed records once `tx` is committed: its inputs are consumed and its outputs created. */
  function Applied(m: map<Id, Record>, tx: Transaction): map<Id, Record> {
    Added(map id | id in m && id !in tx.inputs :: m[id], tx.outputs)
  }

  /** The identifiers of a list of records. */
  function Ids(rs: seq<Record>): (ids: seq<Id>)
    ensures |ids| == |rs|
    ensures forall i :: 0 <= i < |rs| ==> ids[i] == LinearId(rs[i])
  {
    seq(|rs|, i requires 0 <= i < |rs| => LinearId(rs[i]))
  }

  /**
   * After adding records with distinct identifiers, each is found under its
   * identifier, and every other identifier keeps what it had.
   */
  lemma {:induction false} AddedLookup(m: map<Id, Record>, outputs: seq<Record>, id: Id)
    requires Distinct(Ids(outputs))
    ensures forall i :: 0 <= i < |outputs| && LinearId(outputs[i]) == id ==>
              id in Added(m, outputs) && Added(m, outputs)[id] == outputs[i]
    ensures id !in Ids(outputs) ==> (id in Added(m, outputs) <==> id in m)
    ensures id !in Ids(outputs) && id in m ==> Added(m, outputs)[id] == m[id]
  {
    if outputs != [] {
      var n := |outputs| - 1;
      var init := outputs[..n];
      assert Ids(init) == Ids(outputs)[..n];
      AddedLookup(m, init, id);
      forall i | 0 <= i < |outputs| && LinearId(outputs[i]) == id
        ensures id in Added(m, outputs) && Added(m, outputs)[id] == outputs[i]
      {
        if i < n {
          assert init[i] == outputs[i];
          assert Ids(outputs)[i] != Ids(outputs)[n];
        }
      }
      if id !in Ids(outputs) {
        assert LinearId(outputs[n]) == Ids(outputs)[n];
        assert id !in Ids(init) by {
          forall j | 0 <= j < n ensures Ids(init)[j] != id {
            assert Ids(init)[j] == Ids(outputs)[j];
          }
        }
      }
    }
  }

  /**
   * What a committed transaction leaves: each output under its identifier;
   * every other identifier unconsumed exactly when it was unconsumed and not
   * an input, with its record unchanged.
   */
  lemma AppliedLookup(m: map<Id, Record>, tx: Transaction, id: Id)
    requires Distinct(Ids(tx.outputs))
    ensures forall i :: 0 <= i < |tx.outputs| && LinearId(tx.outputs[i]) == id ==>
              id in Applied(m, tx) && Applied(m, tx)[id] == tx.outputs[i]
    ensures id !in Ids(tx.outputs) ==> (id in Applied(m, tx) <==> id in m && id !in tx.inputs)
    ensures id !in Ids(tx.outputs) && id in Applied(m, tx) ==> Applied(m, tx)[id] == m[id]
  {
    AddedLookup(map id | id in m && id !in tx.inputs :: m[id], tx.outputs, id);
  }

  /** A transaction that consumes nothing and creates one record adds just that record. */
  lemma AppliedCreating(m: map<Id, Record>, r: Record, commands: seq<CommandData>)
    ensures Applied(m, Transaction([], [r], commands)) == m[LinearId(r) := r]
  {
    var kept := map id | id in m && id !in [] :: m[id];
    assert kept == m;
    assert [r][..0] == [];
    assert Added(kept, [r]) == Added(kept, [])[LinearId(r) := r];
  }

  /** A ledger whose records are filed under their own identifiers, all below the next fresh one. */
  predicate WellFormed(m: map<Id, Record>, nextId: Id) {
    forall id :: id in m ==> id < nextId && LinearId(m[id]) == id
  }

  /** Adding records whose identifiers are all below `nextId` keeps the ledger well formed. */
  lemma {:induction false} AddedWellFormed(m: map<Id, Record>, outputs: seq<Record>, nextId: Id)
    requires WellFormed(m, nextId)
    requires forall j :: 0 <= j < |outputs| ==> LinearId(outputs[j]) < nextId
    ensures WellFormed(Added(m, outputs), nextId)
  {
    if outputs != [] {
      var n := |outputs| - 1;
      assert forall j :: 0 <= j < n ==> outputs[..n][j] == outputs[j];
      AddedWellFormed(m, outputs[..n], nextId);
    }
  }

  /**
   * Committing a transaction whose outputs take identifiers below the new
   * fresh identifier keeps the ledger well formed.
   */
  lemma AppliedWellFormed(m: map<Id, Record>, tx: Transaction, nextId: Id, nextId': Id)
    requires WellFormed(m, nextId) && nextId <= nextId'
    requires forall j :: 0 <= j < |tx.outputs| ==> LinearId(tx.outputs[j]) < nextId'
    ensures WellFormed(Applied(m, tx), nextId')
  {
    AddedWellFormed(map id | id in m && id !in tx.inputs :: m[id], tx.outputs, nextId');
  }

  function Sum(xs: seq<int>): int {
    if xs == [] then 0 else Sum(xs[..|xs| - 1]) + xs[|xs| - 1]
  }

  /** The sum of a list, one element at a time from the front. */
  lemma {:induction false} SumCons(x: int, xs: seq<int>)
    ensures Sum([x] + xs) == x + Sum(xs)
  {
    if xs != [] {
      var ys := [x] + xs;
      assert ys[..|ys| - 1] == [x] + xs[..|xs| - 1];
      SumCons(x, xs[..|xs| - 1]);
    }
  }
}
