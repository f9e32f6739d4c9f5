/**
 * Issuing and revoking payment guarantees. Issuing debits one account by the
 * sum of the requested amounts and creates, per amount and in order, a
 * reserve of the guarantor and a guarantee for the requester. Revoking
 * consumes guarantees and their reserves and credits every account behind
 * them with the sum of its reserves.
 */
module GuaranteeFlows {
  import opened Wrappers
  import opened Commitments
  import opened MonetaryStates
  import opened LedgerRecords

  // ---------------------------------------------------------------------
  // Issuing guarantees
  // ---------------------------------------------------------------------

  predicate AllPositive(amounts: seq<int>) {
    forall i :: 0 <= i < |amounts| ==> amounts[i] > 0
  }

  /** The reserve of `amount` for `account` with identifier `id`, held by the guarantor. */
  function ReserveFor(account: Id, guarantor: Party, amount: int, id: Id): Record {
    ReserveRec(ReserveState(account, amount, [guarantor], id))
  }

  /** The guarantee of `amount` backed by the reserve `reserveId`, with identifier `id`. */
  function GuaranteeFor(requester: Party, guarantor: Party, amount: int, reserveId: Id, id: Id): Record {
    GuaranteeRec(PaymentGuaranteeState(requester, guarantor, amount, reserveId, id))
  }

  /**
   * The reserves and guarantees created for `amounts`, in order: for the
   * i-th amount a reserve with identifier `next + 2 * i`, then its guarantee
   * with identifier `next + 2 * i + 1`.
   */
  function GuaranteeOutputs(account: Id, requester: Party, guarantor: Party, amounts: seq<int>, next: Id): seq<Record> {
    if amounts == [] then []
    else
      var n := |amounts| - 1;
      GuaranteeOutputs(account, requester, guarantor, amounts[..n], next)
        + [ReserveFor(account, guarantor, amounts[n], next + 2 * n),
           GuaranteeFor(requester, guarantor, amounts[n], next + 2 * n, next + 2 * n + 1)]
  }

  /** The identifiers of the guarantees created for `amounts`, in output order. */
  function GuaranteeIds(amounts: seq<int>, next: Id): (ids: seq<Id>)
    ensures |ids| == |amounts|
  {
    seq(|amounts|, i requires 0 <= i < |amounts| => next + 2 * i + 1)
  }

  /**
   * The guarantor's transaction: the account is consumed and re-created,
   * same owner, participants and identifier, debited by the sum of the
   * amounts; then the reserves and guarantees.
   */
  function ObtainTx(acct: AccountState, requester: Party, guarantor: Party, amounts: seq<int>, next: Id): Transaction {
    Transaction([acct.linearId],
                [AccountRec(acct.(amount := acct.amount - Sum(amounts)))]
                  + GuaranteeOutputs(acct.linearId, requester, guarantor, amounts, next),
                [GuaranteePaymentsCommand(acct.linearId, amounts)])
  }

  /**
   * The guarantee request of `requester` to `guarantor` against `account`:
   * refused for an empty or non-positive list of amounts before the
   * guarantor is asked, then refused unless the guarantor's vault holds the
   * account unconsumed; otherwise the guarantor's transaction.
   */
  function Obtain(m: map<Id, Record>, next: Id, requester: Party, guarantor: Party, account: Id, amounts: seq<int>)
    : (r: Result<Transaction, FlowError>)
    ensures amounts == [] ==> r == Failure(NothingToGuarantee)
    ensures amounts != [] && !AllPositive(amounts) ==> r == Failure(NonPositiveAmount)
    ensures amounts != [] && AllPositive(amounts) && !Found(m, account, guarantor, AccountKind) ==> r == Failure(AccountNotFound)
    ensures r.Success? <==> amounts != [] && AllPositive(amounts) && Found(m, account, guarantor, AccountKind)
  {
    if amounts == [] then Failure(NothingToGuarantee)
    else if exists i :: 0 <= i < |amounts| && amounts[i] <= 0 then Failure(NonPositiveAmount)
    else if !Found(m, account, guarantor, AccountKind) then Failure(AccountNotFound)
    else Success(ObtainTx(m[account].account, requester, guarantor, amounts, next))
  }

  /** The total of the reserves among `rs`. */
  function ReservedTotal(rs: seq<Record>): int {
    if rs == [] then 0
    else ReservedTotal(rs[..|rs| - 1]) + (if rs[|rs| - 1].ReserveRec? then rs[|rs| - 1].reserve.amount else 0)
  }

  lemma {:induction false} ReservedTotalAppend(a: seq<Record>, b: seq<Record>)
    ensures ReservedTotal(a + b) == ReservedTotal(a) + ReservedTotal(b)
    decreases |b|
  {
    if b != [] {
      var ab, init, last := a + b, b[..|b| - 1], b[|b| - 1];
      assert ab[..|ab| - 1] == a + init;
      assert ab[|ab| - 1] == last;
      ReservedTotalAppend(a, init);
      calc {
        ReservedTotal(ab);
        ReservedTotal(a + init) + (if last.ReserveRec? then last.reserve.amount else 0);
        ReservedTotal(a) + ReservedTotal(init) + (if last.ReserveRec? then last.reserve.amount else 0);
        ReservedTotal(a) + ReservedTotal(b);
      }
    } else {
      assert a + b == a;
    }
  }

  /**
   * The layout of the created records: two per amount, the i-th reserve of
   * `amounts[i]` for the account held by the guarantor, followed by the
   * guarantee of the same amount backed by it; and the reserves add up to
   * the sum of the amounts.
   */
  lemma {:induction false} GuaranteeOutputsLayout(account: Id, requester: Party, guarantor: Party, amounts: seq<int>, next: Id)
    ensures |GuaranteeOutputs(account, requester, guarantor, amounts, next)| == 2 * |amounts|
    ensures forall i :: 0 <= i < |amounts| ==>
              GuaranteeOutputs(account, requester, guarantor, amounts, next)[2 * i] ==
                ReserveFor(account, guarantor, amounts[i], next + 2 * i) &&
              GuaranteeOutputs(account, requester, guarantor, amounts, next)[2 * i + 1] ==
                GuaranteeFor(requester, guarantor, amounts[i], next + 2 * i, next + 2 * i + 1)
    ensures ReservedTotal(GuaranteeOutputs(account, requester, guarantor, amounts, next)) == Sum(amounts)
  {
    if amounts != [] {
      var n := |amounts| - 1;
      var init := amounts[..n];
      var prev := GuaranteeOutputs(account, requester, guarantor, init, next);
      var pair := [ReserveFor(account, guarantor, amounts[n], next + 2 * n),
                   GuaranteeFor(requester, guarantor, amounts[n], next + 2 * n, next + 2 * n + 1)];
      GuaranteeOutputsLayout(account, requester, guarantor, init, next);
      var outs := prev + pair;
      forall i | 0 <= i < |amounts|
        ensures outs[2 * i] == ReserveFor(account, guarantor, amounts[i], next + 2 * i)
        ensures outs[2 * i + 1] == GuaranteeFor(requester, guarantor, amounts[i], next + 2 * i, next + 2 * i + 1)
      {
        if i < n {
          assert init[i] == amounts[i];
        }
      }
      ReservedTotalAppend(prev, pair);
      assert ReservedTotal(pair) == amounts[n] by {
        assert pair[..1] == [pair[0]];
        assert [pair[0]][..0] == [];
        assert ReservedTotal([pair[0]]) == amounts[n];
      }
    }
  }

  /** The created records carry the identifiers `next` up to `next + 2 * |amounts|`, in order. */
  lemma GuaranteeOutputIds(account: Id, requester: Party, guarantor: Party, amounts: seq<int>, next: Id)
    ensures forall j :: 0 <= j < |GuaranteeOutputs(account, requester, guarantor, amounts, next)| ==>
              LinearId(GuaranteeOutputs(account, requester, guarantor, amounts, next)[j]) == next + j
  {
    var outs := GuaranteeOutputs(account, requester, guarantor, amounts, next);
    GuaranteeOutputsLayout(account, requester, guarantor, amounts, next);
    forall j | 0 <= j < |outs| ensures LinearId(outs[j]) == next + j {
      var i := j / 2;
      assert j == 2 * i || j == 2 * i + 1;
    }
  }

  /**
   * The guarantor's transaction consumes exactly the account and re-creates
   * it debited by the sum of the amounts, with owner, participants and
   * identifier unchanged; the debit equals the total reserved, so nothing
   * is created or lost; all identifiers are distinct when the account's is
   * below the fresh ones.
   */
  lemma ObtainTxFacts(acct: AccountState, requester: Party, guarantor: Party, amounts: seq<int>, next: Id)
    requires acct.linearId < next
    ensures var tx := ObtainTx(acct, requester, guarantor, amounts, next);
            tx.inputs == [acct.linearId] &&
            tx.outputs[0] == AccountRec(AccountState(acct.owner, acct.amount - Sum(amounts), acct.participants, acct.linearId)) &&
            tx.outputs[0].account.amount + ReservedTotal(tx.outputs) == acct.amount &&
            Distinct(Ids(tx.outputs))
  {
    var head := [AccountRec(acct.(amount := acct.amount - Sum(amounts)))];
    var outs := GuaranteeOutputs(acct.linearId, requester, guarantor, amounts, next);
    GuaranteeOutputsLayout(acct.linearId, requester, guarantor, amounts, next);
    ReservedTotalAppend(head, outs);
    assert ReservedTotal(head) == 0 by {
      assert head[..0] == [];
    }
    ObtainTxIdsDistinct(acct, requester, guarantor, amounts, next);
  }

  /** The debited account and the new records carry distinct identifiers. */
  lemma ObtainTxIdsDistinct(acct: AccountState, requester: Party, guarantor: Party, amounts: seq<int>, next: Id)
    requires acct.linearId < next
    ensures Distinct(Ids(ObtainTx(acct, requester, guarantor, amounts, next).outputs))
  {
    var tx := ObtainTx(acct, requester, guarantor, amounts, next);
    var outs := GuaranteeOutputs(acct.linearId, requester, guarantor, amounts, next);
    GuaranteeOutputIds(acct.linearId, requester, guarantor, amounts, next);
    forall i, j | 0 <= i < j < |tx.outputs| ensures Ids(tx.outputs)[i] != Ids(tx.outputs)[j] {
      assert tx.outputs[j] == outs[j - 1];
      if i > 0 {
        assert tx.outputs[i] == outs[i - 1];
      }
    }
  }

  /**
   * What the requester gets back: one identifier per amount, and the i-th
   * names a guarantee of `amounts[i]` from the guarantor to the requester.
   */
  lemma ObtainResultIds(acct: AccountState, requester: Party, guarantor: Party, amounts: seq<int>, next: Id, i: nat)
    requires i < |amounts|
    ensures var tx := ObtainTx(acct, requester, guarantor, amounts, next);
            2 * i + 2 < |tx.outputs| &&
            tx.outputs[2 * i + 2].GuaranteeRec? &&
            tx.outputs[2 * i + 2].guarantee.linearId == GuaranteeIds(amounts, next)[i] &&
            tx.outputs[2 * i + 2].guarantee.amount == amounts[i] &&
            tx.outputs[2 * i + 2].guarantee.requester == requester &&
            tx.outputs[2 * i + 2].guarantee.guarantor == guarantor
  {
    var tx := ObtainTx(acct, requester, guarantor, amounts, next);
    var outs := GuaranteeOutputs(acct.linearId, requester, guarantor, amounts, next);
    GuaranteeOutputsLayout(acct.linearId, requester, guarantor, amounts, next);
    assert outs[2 * i + 1] == GuaranteeFor(requester, guarantor, amounts[i], next + 2 * i, next + 2 * i + 1);
    assert tx.outputs[2 * i + 2] == outs[2 * i + 1];
  }

  // ---------------------------------------------------------------------
  // Revoking guarantees
  // ---------------------------------------------------------------------

  /** The reserves behind the guarantees `gids`, one per guarantee, in order. */
  function ReserveIdsOf(m: map<Id, Record>, gids: seq<Id>): (rids: seq<Id>)
    requires AllOfKind(m, gids, GuaranteeKind)
    ensures |rids| == |gids|
    ensures forall i :: 0 <= i < |gids| ==> rids[i] == m[gids[i]].guarantee.reserveId
  {
    seq(|gids|, i requires 0 <= i < |gids| => m[gids[i]].guarantee.reserveId)
  }

  /** The accounts of the reserves `rids`, each once, in the order they first occur (the keys of `groupBy`). */
  function AccountsOf(m: map<Id, Record>, rids: seq<Id>): (aids: seq<Id>)
    requires AllOfKind(m, rids, ReserveKind)
    ensures Distinct(aids)
    ensures forall a :: a in aids <==> exists i :: 0 <= i < |rids| && m[rids[i]].reserve.account == a
  {
    if rids == [] then []
    else
      var n := |rids| - 1;
      var prev := AccountsOf(m, rids[..n]);
      var a := m[rids[n]].reserve.account;
      assert forall i :: 0 <= i < n ==> rids[..n][i] == rids[i];
      if a in prev then prev else prev + [a]
  }

  /** The total of the reserves among `rids` that belong to `account` (the per-account `sumBy`). */
  function ReservedFor(m: map<Id, Record>, rids: seq<Id>, account: Id): int
    requires AllOfKind(m, rids, ReserveKind)
  {
    if rids == [] then 0
    else
      var n := |rids| - 1;
      var r := m[rids[n]].reserve;
      ReservedFor(m, rids[..n], account) + (if r.account == account then r.amount else 0)
  }

  /** Account `a` credited back with what `rids` reserved on it. */
  function Credited(m: map<Id, Record>, rids: seq<Id>, a: Id): Record
    requires AllOfKind(m, rids, ReserveKind) && a in m && m[a].AccountRec?
  {
    var acct := m[a].account;
    AccountRec(acct.(amount := acct.amount + ReservedFor(m, rids, a)))
  }

  /** The guarantor's outputs: each account, in order, credited with the sum of its reserves. */
  function RevokeOutputs(m: map<Id, Record>, rids: seq<Id>, aids: seq<Id>): (outs: seq<Record>)
    requires AllOfKind(m, rids, ReserveKind) && AllOfKind(m, aids, AccountKind)
    ensures |outs| == |aids|
  {
    seq(|aids|, i requires 0 <= i < |aids| => Credited(m, rids, aids[i]))
  }

  /**
   * The revocation by `requester` of the guarantees `gids` issued by
   * `guarantor`: refused for an empty list, then unless the requester's
   * vault holds every guarantee unconsumed, then unless the guarantor's
   * vault holds every reserve behind them, then unless it holds every
   * account behind those; otherwise the guarantor's transaction, which
   * consumes the guarantees, the reserves and the accounts and re-creates
   * the accounts credited.
   */
  function Revoke(m: map<Id, Record>, requester: Party, guarantor: Party, gids: seq<Id>): (r: Result<Transaction, FlowError>)
    ensures gids == [] ==> r == Failure(NothingToRevoke)
  {
    if gids == [] then Failure(NothingToRevoke)
    else if |FetchIds(m, gids, requester, GuaranteeKind)| != |gids| then Failure(GuaranteesConsumed)
    else
      FetchAllIff(m, gids, requester, GuaranteeKind);
      var rids := ReserveIdsOf(m, gids);
      if |FetchIds(m, rids, guarantor, ReserveKind)| != |rids| then Failure(ReservesConsumed)
      else
        FetchAllIff(m, rids, guarantor, ReserveKind);
        var aids := AccountsOf(m, rids);
        if |FetchIds(m, aids, guarantor, AccountKind)| != |aids| then Failure(AccountsConsumed)
        else
          FetchAllIff(m, aids, guarantor, AccountKind);
          Success(Transaction(gids + rids + aids, RevokeOutputs(m, rids, aids), [RevokePaymentGuaranteesCommand]))
  }

  /**
   * The guarantees `gids` are distinct and in the requester's vault, their
   * reserves are distinct and in the guarantor's vault, and so are the
   * accounts of those reserves.
   */
  predicate RevocableAll(m: map<Id, Record>, requester: Party, guarantor: Party, gids: seq<Id>) {
    gids != [] &&
    Distinct(gids) && (forall i :: 0 <= i < |gids| ==> Found(m, gids[i], requester, GuaranteeKind)) &&
    var rids := ReserveIdsOf(m, gids);
    Distinct(rids) && (forall i :: 0 <= i < |rids| ==> Found(m, rids[i], guarantor, ReserveKind)) &&
    var aids := AccountsOf(m, rids);
    forall i :: 0 <= i < |aids| ==> Found(m, aids[i], guarantor, AccountKind)
  }

  /** A revocation goes through exactly when everything it names is still there, in the right vaults. */
  lemma RevokeSucceedsIff(m: map<Id, Record>, requester: Party, guarantor: Party, gids: seq<Id>)
    ensures Revoke(m, requester, guarantor, gids).Success? <==> RevocableAll(m, requester, guarantor, gids)
  {
    var r := Revoke(m, requester, guarantor, gids);
    if gids == [] {
      return;
    }
    FetchAllIff(m, gids, requester, GuaranteeKind);
    if |FetchIds(m, gids, requester, GuaranteeKind)| != |gids| {
      assert r == Failure(GuaranteesConsumed);
      assert !RevocableAll(m, requester, guarantor, gids);
      return;
    }
    var rids := ReserveIdsOf(m, gids);
    FetchAllIff(m, rids, guarantor, ReserveKind);
    if |FetchIds(m, rids, guarantor, ReserveKind)| != |rids| {
      assert r == Failure(ReservesConsumed);
      assert !RevocableAll(m, requester, guarantor, gids);
      return;
    }
    var aids := AccountsOf(m, rids);
    FetchAllIff(m, aids, guarantor, AccountKind);
    if |FetchIds(m, aids, guarantor, AccountKind)| != |aids| {
      assert r == Failure(AccountsConsumed);
      assert !RevocableAll(m, requester, guarantor, gids);
      return;
    }
    assert r.Success?;
    assert RevocableAll(m, requester, guarantor, gids);
  }

  /**
   * A revocation consumes every guarantee, every reserve and every account
   * involved, and creates nothing but the accounts: one per distinct
   * account, in the order its first reserve appears, with its amount raised
   * by the total of its reserves and every other field unchanged.
   */
  lemma RevokeCreditsEachAccount(m: map<Id, Record>, requester: Party, guarantor: Party, gids: seq<Id>)
    requires Revoke(m, requester, guarantor, gids).Success?
    ensures var tx := Revoke(m, requester, guarantor, gids).value;
            AllOfKind(m, gids, GuaranteeKind) &&
            var rids := ReserveIdsOf(m, gids);
            AllOfKind(m, rids, ReserveKind) &&
            var aids := AccountsOf(m, rids);
            AllOfKind(m, aids, AccountKind) &&
            tx.inputs == gids + rids + aids &&
            |tx.outputs| == |aids| && Distinct(aids) &&
            forall i :: 0 <= i < |aids| ==>
              tx.outputs[i].AccountRec? &&
              tx.outputs[i].account == m[aids[i]].account.(amount := m[aids[i]].account.amount + ReservedFor(m, rids, aids[i]))
  {
    var rids, aids := RevokeTxShape(m, requester, guarantor, gids);
    CreditedOutputs(m, rids, aids);
  }

  /** The transaction of a revocation that goes through, in terms of the reserves and accounts it finds. */
  lemma RevokeTxShape(m: map<Id, Record>, requester: Party, guarantor: Party, gids: seq<Id>) returns (rids: seq<Id>, aids: seq<Id>)
    requires Revoke(m, requester, guarantor, gids).Success?
    ensures AllOfKind(m, gids, GuaranteeKind) && rids == ReserveIdsOf(m, gids)
    ensures AllOfKind(m, rids, ReserveKind) && aids == AccountsOf(m, rids)
    ensures AllOfKind(m, aids, AccountKind)
    ensures Revoke(m, requester, guarantor, gids).value ==
            Transaction(gids + rids + aids, RevokeOutputs(m, rids, aids), [RevokePaymentGuaranteesCommand])
  {
    FetchAllIff(m, gids, requester, GuaranteeKind);
    rids := ReserveIdsOf(m, gids);
    FetchAllIff(m, rids, guarantor, ReserveKind);
    aids := AccountsOf(m, rids);
    FetchAllIff(m, aids, guarantor, AccountKind);
  }

  /** Each credited output is its account with the reserved total added to the amount. */
  lemma CreditedOutputs(m: map<Id, Record>, rids: seq<Id>, aids: seq<Id>)
    requires AllOfKind(m, rids, ReserveKind) && AllOfKind(m, aids, AccountKind)
    ensures forall i :: 0 <= i < |aids| ==>
              RevokeOutputs(m, rids, aids)[i].AccountRec? &&
              RevokeOutputs(m, rids, aids)[i].account ==
                m[aids[i]].account.(amount := m[aids[i]].account.amount + ReservedFor(m, rids, aids[i]))
  {
    var outs := RevokeOutputs(m, rids, aids);
    forall i | 0 <= i < |aids|
      ensures outs[i].AccountRec?
      ensures outs[i].account == m[aids[i]].account.(amount := m[aids[i]].account.amount + ReservedFor(m, rids, aids[i]))
    {
      assert outs[i] == Credited(m, rids, aids[i]);
    }
  }

  // ---------------------------------------------------------------------
  // Issuing then revoking
  // ---------------------------------------------------------------------

  /** Reserves that all belong to `account` have it as their only account, and their total is what `ReservedFor` gives it. */
  lemma {:induction false} SingleAccount(m: map<Id, Record>, rids: seq<Id>, account: Id, amounts: seq<int>)
    requires AllOfKind(m, rids, ReserveKind) && |rids| == |amounts|
    requires forall i :: 0 <= i < |rids| ==> m[rids[i]].reserve.account == account && m[rids[i]].reserve.amount == amounts[i]
    ensures rids != [] ==> AccountsOf(m, rids) == [account]
    ensures ReservedFor(m, rids, account) == Sum(amounts)
  {
    if rids != [] {
      var n := |rids| - 1;
      assert forall i :: 0 <= i < n ==> rids[..n][i] == rids[i] && amounts[..n][i] == amounts[i];
      SingleAccount(m, rids[..n], account, amounts[..n]);
      if n == 0 {
        assert rids[..n] == [];
        assert amounts[..n] == [];
      }
    }
  }

  /** After issuing, the i-th reserve and guarantee are unconsumed under their fresh identifiers. */
  lemma ObtainedPair(m: map<Id, Record>, next: Id, requester: Party, guarantor: Party, acct: AccountState, amounts: seq<int>, i: nat)
    requires acct.linearId < next && i < |amounts|
    ensures var m1 := Applied(m, ObtainTx(acct, requester, guarantor, amounts, next));
            next + 2 * i in m1 && m1[next + 2 * i] == ReserveFor(acct.linearId, guarantor, amounts[i], next + 2 * i) &&
            next + 2 * i + 1 in m1 &&
            m1[next + 2 * i + 1] == GuaranteeFor(requester, guarantor, amounts[i], next + 2 * i, next + 2 * i + 1)
  {
    var tx := ObtainTx(acct, requester, guarantor, amounts, next);
    var outs := GuaranteeOutputs(acct.linearId, requester, guarantor, amounts, next);
    ObtainTxFacts(acct, requester, guarantor, amounts, next);
    GuaranteeOutputsLayout(acct.linearId, requester, guarantor, amounts, next);
    assert outs[2 * i] == ReserveFor(acct.linearId, guarantor, amounts[i], next + 2 * i);
    assert tx.outputs[2 * i + 1] == outs[2 * i];
    assert tx.outputs[2 * i + 2] == outs[2 * i + 1];
    AppliedLookup(m, tx, next + 2 * i);
    AppliedLookup(m, tx, next + 2 * i + 1);
  }

  /** After issuing, the account is unconsumed again, debited by the sum of the amounts. */
  lemma ObtainedAccount(m: map<Id, Record>, next: Id, requester: Party, guarantor: Party, acct: AccountState, amounts: seq<int>)
    requires acct.linearId < next
    ensures var m1 := Applied(m, ObtainTx(acct, requester, guarantor, amounts, next));
            acct.linearId in m1 && m1[acct.linearId] == AccountRec(acct.(amount := acct.amount - Sum(amounts)))
  {
    var tx := ObtainTx(acct, requester, guarantor, amounts, next);
    ObtainTxFacts(acct, requester, guarantor, amounts, next);
    AppliedLookup(m, tx, acct.linearId);
  }

  /** The reserve identifiers behind guarantees issued from `next` on. */
  function IssuedReserveIds(amounts: seq<int>, next: Id): (rids: seq<Id>)
    ensures |rids| == |amounts|
  {
    seq(|amounts|, i requires 0 <= i < |amounts| => next + 2 * i)
  }

  /** The records one issue left unconsumed: the i-th reserve and guarantee under their fresh identifiers. */
  predicate Issued(m1: map<Id, Record>, requester: Party, guarantor: Party, account: Id, amounts: seq<int>, next: Id) {
    forall i :: 0 <= i < |amounts| ==>
      next + 2 * i in m1 && m1[next + 2 * i] == ReserveFor(account, guarantor, amounts[i], next + 2 * i) &&
      next + 2 * i + 1 in m1 &&
      m1[next + 2 * i + 1] == GuaranteeFor(requester, guarantor, amounts[i], next + 2 * i, next + 2 * i + 1)
  }

  /** The requester's query finds every issued guarantee, and they point at the issued reserves. */
  lemma IssuedGuaranteesFound(m1: map<Id, Record>, requester: Party, guarantor: Party, account: Id, amounts: seq<int>, next: Id)
    requires Issued(m1, requester, guarantor, account, amounts, next)
    ensures var gids := GuaranteeIds(amounts, next);
            |FetchIds(m1, gids, requester, GuaranteeKind)| == |gids| && AllOfKind(m1, gids, GuaranteeKind) &&
            ReserveIdsOf(m1, gids) == IssuedReserveIds(amounts, next)
  {
    var gids := GuaranteeIds(amounts, next);
    forall i | 0 <= i < |gids| ensures Found(m1, gids[i], requester, GuaranteeKind) {
      assert gids[i] == next + 2 * i + 1;
      assert m1[gids[i]] == GuaranteeFor(requester, guarantor, amounts[i], next + 2 * i, gids[i]);
    }
    assert Distinct(gids) by {
      forall i, j | 0 <= i < j < |gids| ensures gids[i] != gids[j] {
        assert gids[i] == next + 2 * i + 1 && gids[j] == next + 2 * j + 1;
      }
    }
    FetchAllIff(m1, gids, requester, GuaranteeKind);
    IssuedReservesBehind(m1, requester, guarantor, account, amounts, next);
  }

  lemma IssuedReservesBehind(m1: map<Id, Record>, requester: Party, guarantor: Party, account: Id, amounts: seq<int>, next: Id)
    requires Issued(m1, requester, guarantor, account, amounts, next)
    requires AllOfKind(m1, GuaranteeIds(amounts, next), GuaranteeKind)
    ensures ReserveIdsOf(m1, GuaranteeIds(amounts, next)) == IssuedReserveIds(amounts, next)
  {
    var gids := GuaranteeIds(amounts, next);
    var rids, issued := ReserveIdsOf(m1, gids), IssuedReserveIds(amounts, next);
    forall i | 0 <= i < |amounts| ensures rids[i] == issued[i] {
      assert gids[i] == next + 2 * i + 1;
    }
  }

  /** The guarantor's query finds every issued reserve; they all belong to the account and add up to the amounts. */
  lemma IssuedReservesFound(m1: map<Id, Record>, requester: Party, guarantor: Party, account: Id, amounts: seq<int>, next: Id)
    requires Issued(m1, requester, guarantor, account, amounts, next)
    ensures var rids := IssuedReserveIds(amounts, next);
            |FetchIds(m1, rids, guarantor, ReserveKind)| == |rids| && AllOfKind(m1, rids, ReserveKind) &&
            (amounts != [] ==> AccountsOf(m1, rids) == [account]) &&
            ReservedFor(m1, rids, account) == Sum(amounts)
  {
    var rids := IssuedReserveIds(amounts, next);
    forall i | 0 <= i < |rids|
      ensures Found(m1, rids[i], guarantor, ReserveKind)
      ensures m1[rids[i]].reserve.account == account && m1[rids[i]].reserve.amount == amounts[i]
    {
      assert rids[i] == next + 2 * i;
    }
    SingleAccount(m1, rids, account, amounts);
    FetchAllIff(m1, rids, guarantor, ReserveKind);
  }

  /**
   * Revoking all the guarantees of one issue, while they, their reserves and
   * the account are unconsumed, credits the account with the sum of the amounts.
   */
  lemma RevokeIssued(m1: map<Id, Record>, requester: Party, guarantor: Party, account: Id, amounts: seq<int>, next: Id)
    requires amounts != []
    requires Issued(m1, requester, guarantor, account, amounts, next)
    requires Found(m1, account, guarantor, AccountKind)
    ensures var rids := IssuedReserveIds(amounts, next);
            AllOfKind(m1, rids, ReserveKind) &&
            Revoke(m1, requester, guarantor, GuaranteeIds(amounts, next)) ==
              Success(Transaction(GuaranteeIds(amounts, next) + rids + [account], [Credited(m1, rids, account)],
                                  [RevokePaymentGuaranteesCommand])) &&
            ReservedFor(m1, rids, account) == Sum(amounts)
  {
    var gids := GuaranteeIds(amounts, next);
    var rids := IssuedReserveIds(amounts, next);
    IssuedGuaranteesFound(m1, requester, guarantor, account, amounts, next);
    IssuedReservesFound(m1, requester, guarantor, account, amounts, next);
    FetchAllIff(m1, [account], guarantor, AccountKind);
    assert RevokeOutputs(m1, rids, [account]) == [Credited(m1, rids, account)];
  }

  /**
   * Issuing guarantees against an account and then revoking all of them
   * goes through and restores the account's amount, owner, participants and
   * identifier.
   */
  lemma ObtainThenRevokeRestores(m: map<Id, Record>, next: Id, requester: Party, guarantor: Party, account: Id, amounts: seq<int>)
    requires WellFormed(m, next)
    requires Obtain(m, next, requester, guarantor, account, amounts).Success?
    ensures var m1 := Applied(m, Obtain(m, next, requester, guarantor, account, amounts).value);
            var revoked := Revoke(m1, requester, guarantor, GuaranteeIds(amounts, next));
            revoked.Success? && account in Applied(m1, revoked.value) &&
            Applied(m1, revoked.value)[account] == m[account]
  {
    var acct := m[account].account;
    assert acct.linearId == account;
    var tx1 := ObtainTx(acct, requester, guarantor, amounts, next);
    assert Obtain(m, next, requester, guarantor, account, amounts) == Success(tx1);
    var m1 := Applied(m, tx1);
    forall i | 0 <= i < |amounts|
      ensures next + 2 * i in m1 && m1[next + 2 * i] == ReserveFor(account, guarantor, amounts[i], next + 2 * i)
      ensures next + 2 * i + 1 in m1 &&
              m1[next + 2 * i + 1] == GuaranteeFor(requester, guarantor, amounts[i], next + 2 * i, next + 2 * i + 1)
    {
      ObtainedPair(m, next, requester, guarantor, acct, amounts, i);
    }
    assert Issued(m1, requester, guarantor, account, amounts, next);
    ObtainedAccount(m, next, requester, guarantor, acct, amounts);
    RevokeIssued(m1, requester, guarantor, account, amounts, next);
    var rids := IssuedReserveIds(amounts, next);
    var tx2 := Transaction(GuaranteeIds(amounts, next) + rids + [account], [Credited(m1, rids, account)],
                           [RevokePaymentGuaranteesCommand]);
    assert Ids(tx2.outputs) == [account];
    AppliedLookup(m1, tx2, account);
  }
}
