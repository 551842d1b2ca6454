/**
 What becomes of a withdrawal after the vote: the node reports it done, for a fee, or refuses
 it, or the transaction that paid it is cancelled; and what each does to the balance.
 */
module Settlement {
  import opened Domain
  import opened Collections
  import opened Accounts
  import opened Updates
  import opened StateMachine
  import opened Invariants
  import opened Runs
  import opened Requests
  import Replay
  import T = Transactions
  import W = Withdrawals

  /** What a request keeps from the balance: its amount and the fee reported, until it is rejected. */
  function Withheld(req: W.WithdrawalRequest): int {
    match req.status
    case OpRejected => 0
    case NodeRejected(_) => 0
    case Completed(_, _, Some(fee), _, _) => req.amount + fee
    case _ => req.amount
  }

  lemma CostIsWithheld(req: W.WithdrawalRequest)
    ensures req.Cost() == Withheld(req)
  {}

  /** Deposits apart, an account moves by what the request under the id withheld before and withholds after. */
  lemma StatusMoves(s: State, id: Uuid, status: W.WithdrawalRequestStatus, u: UserId, c: Currency)
    requires RequestAt(s, u, c, id)
    ensures var s' := StatusSet(s, id, status);
      && RequestAt(s', u, c, id) && RequestOf(s', u, c, id) == RequestOf(s, u, c, id).(status := status)
      && Account(s', u, c).transactions == Account(s, u, c).transactions
      && Net(Account(s', u, c))
        == Net(Account(s, u, c)) + Withheld(RequestOf(s, u, c, id)) - Withheld(RequestOf(s', u, c, id))
  {
    StatusSetExactly(s, id, status);
    var info, s' := Account(s, u, c), StatusSet(s, id, status);
    var req, req' := RequestOf(s, u, c, id), RequestOf(s', u, c, id);
    assert Account(s', u, c).withdrawalRequests == info.withdrawalRequests[id := req'];
    SumUpdate(info.withdrawalRequests, id, req', CostOf());
    CostIsWithheld(req);
    CostIsWithheld(req');
  }

  lemma StampedRequest(s: State, t: Time, u: UserId, c: Currency, id: Uuid)
    requires RequestAt(s, u, c, id)
    ensures var s' := s.(lastChanged := t);
      RequestAt(s', u, c, id) && RequestOf(s', u, c, id) == RequestOf(s, u, c, id)
      && Account(s', u, c) == Account(s, u, c)
  {}

  /**
   Reporting a withdrawal done is always accepted. It charges the reported fee: exactly that, on
   a request that was still withheld and not yet done; a rejected one is charged its amount again.
   */
  lemma CompletionChargesFee(s: State, step: Step, u: UserId, c: Currency)
    requires step.update.body.WithdrawalRequestComplete? && RequestAt(s, u, c, step.update.body.complete.id)
    ensures Apply(s, step.update, step.nd).Ok?
    ensures var i, s' := step.update.body.complete, Advance(s, step);
      var fee := if i.fee.Some? then i.fee.value else 0;
      var req := RequestOf(s, u, c, i.id);
      && Has(s', u, c)
      && Net(Account(s', u, c)) == Net(Account(s, u, c)) + Withheld(req) - req.amount - fee
      && (req.status.InProgress? || req.status.Confirmed? ==>
            Net(Account(s', u, c)) == Net(Account(s, u, c)) - fee)
  {
    hide StatusSet;
    var i := step.update.body.complete;
    StatusMoves(s, i.id, i.Status(), u, c);
    StampedRequest(StatusSet(s, i.id, i.Status()), step.update.created, u, c, i.id);
  }

  /** What was reported done is found by its transaction from then on. */
  lemma CompletionIsFound(s: State, step: Step, u: UserId, c: Currency)
    requires StateOk(s) && step.update.body.WithdrawalRequestComplete?
    requires RequestAt(s, u, c, step.update.body.complete.id) && step.update.body.complete.txid.Currency() == c
    ensures var i, s' := step.update.body.complete, Advance(s, step);
      && CompletedIn(s', u, i.txid, i.id) && RequestAt(s', u, c, i.id)
      && RequestOf(s', u, c, i.id).status
        == W.Completed(i.confirmedAt, i.txid, i.fee, i.inputAddresses, i.outputAddresses)
  {
    hide StatusSet, CompletedIn, StateOk;
    var i := step.update.body.complete;
    var middle := StatusSet(s, i.id, i.Status());
    StatusMoves(s, i.id, i.Status(), u, c);
    StatusSetOk(s, i.id, i.Status());
    StampedRequest(middle, step.update.created, u, c, i.id);
    DoneIsFound(middle, step.update.created, i.txid, u, c, i.id);
  }

  lemma DoneIsFound(s: State, t: Time, txid: CurrencyTxId, u: UserId, c: Currency, id: Uuid)
    requires StateOk(s) && RequestAt(s, u, c, id) && txid.Currency() == c
    requires var status := RequestOf(s, u, c, id).status; status.Completed? && status.txid == txid
    ensures CompletedIn(s.(lastChanged := t), u, txid, id)
  {
    assert UserOk(u, s.users[u]) && AccountOk(u, c, Account(s, u, c));
    assert RequestOk(u, c, id, RequestOf(s, u, c, id));
  }

  /** The node's refusal gives back whatever the request withheld. */
  lemma NodeRejectionReturns(s: State, step: Step, u: UserId, c: Currency)
    requires step.update.body.WithdrawalRequestNodeRejected? && RequestAt(s, u, c, step.update.body.reject.id)
    ensures Apply(s, step.update, step.nd).Ok?
    ensures var id, s' := step.update.body.reject.id, Advance(s, step);
      && RequestAt(s', u, c, id)
      && RequestOf(s', u, c, id).status == W.NodeRejected(step.update.body.reject.reason)
      && Net(Account(s', u, c)) == Net(Account(s, u, c)) + Withheld(RequestOf(s, u, c, id))
  {
    hide StatusSet;
    var i := step.update.body.reject;
    StatusMoves(s, i.id, W.NodeRejected(i.reason), u, c);
    StampedRequest(StatusSet(s, i.id, W.NodeRejected(i.reason)), step.update.created, u, c, i.id);
  }

  /** The request stored there was completed by the transaction. */
  ghost predicate DoneBy(s: State, u: UserId, txid: CurrencyTxId, id: Uuid) {
    && RequestAt(s, u, txid.Currency(), id)
    && var status := RequestOf(s, u, txid.Currency(), id).status;
    status.Completed? && status.txid == txid
  }

  /** What the search by transaction looks for. */
  lemma CompletedIsDone(s: State, u: UserId, txid: CurrencyTxId, id: Uuid)
    requires StateOk(s)
    ensures CompletedIn(s, u, txid, id) <==> DoneBy(s, u, txid, id)
  {
    var c := txid.Currency();
    if Has(s, u, c) {
      var info := Account(s, u, c);
      assert UserOk(u, s.users[u]) && AccountOk(u, c, info);
      forall k | k in info.withdrawalRequests ensures RequestOk(u, c, k, info.withdrawalRequests[k]) {
      }
    }
  }

  /** The only withdrawal a transaction completed is the one a cancel of it finds. */
  lemma CompletedFound(s: State, txid: CurrencyTxId, u: UserId, id: Uuid, nd: Nondet)
    requires CompletedIn(s, u, txid, id) && AdmissibleCompleted(s, txid, nd)
    requires forall v, i :: CompletedIn(s, v, txid, i) ==> i == id
    ensures FindWithdrawal(s, txid, nd) == Some(id)
  {
    hide CompletedIn;
    if FindWithdrawal(s, txid, nd).Some? {
      var v :| CompletedIn(s, v, txid, nd.completed.value);
    }
  }

  /** Dropping a deposit leaves every withdrawal, and the rest of the balance, as they were. */
  lemma DroppedLeavesWithdrawals(s: State, cancel: T.TxCancel, nd: Nondet, u: UserId, c: Currency, id: Uuid)
    requires RequestAt(s, u, c, id)
    ensures var s' := DepositDropped(s, cancel, nd);
      && RequestAt(s', u, c, id) && RequestOf(s', u, c, id) == RequestOf(s, u, c, id)
      && Movements(Account(s', u, c)) == Movements(Account(s, u, c))
  {
    hide T.Remove;
  }

  /**
   Cancelling the transaction that paid a withdrawal, and only that one, rejects the withdrawal
   and gives its holder back, deposits apart, the amount and the fee it had been charged.
   */
  lemma CancelReturnsWithdrawal(s: State, step: Step, u: UserId, c: Currency, v: UserId, id: Uuid)
    requires step.update.body.CancelBtcTx? && Admissible(s, step.update.body, step.nd) && StateOk(s)
    requires !IsExchangeAddress(s, BtcAddress(step.update.body.cancel.address))
    requires var txid := BtcTxId(step.update.body.cancel.txid);
      DoneBy(s, v, txid, id) && forall w, i :: DoneBy(s, w, txid, i) ==> i == id
    requires RequestAt(s, u, c, id)
    ensures var s' := Advance(s, step);
      && RequestAt(s', u, c, id) && RequestOf(s', u, c, id).status == W.NodeRejected("Tx canceled")
      && Movements(Account(s', u, c)) == Movements(Account(s, u, c)) + Withheld(RequestOf(s, u, c, id))
  {
    hide StatusSet, DepositDropped, CompletedIn, DoneBy, StateOk, Withheld, IsExchangeAddress;
    var cancel := step.update.body.cancel;
    var middle, txid := DepositDropped(s, cancel, step.nd), BtcTxId(cancel.txid);
    DoneAfterDrop(s, cancel, step.nd);
    CompletedFound(middle, txid, v, id, step.nd);
    DroppedLeavesWithdrawals(s, cancel, step.nd, u, c, id);
    var status := W.NodeRejected("Tx canceled");
    StatusMoves(middle, id, status, u, c);
    RejectedWithholdsNothing(RequestOf(middle, u, c, id), status.reason);
    StampedRequest(StatusSet(middle, id, status), step.update.created, u, c, id);
  }

  lemma DoneAfterDrop(s: State, cancel: T.TxCancel, nd: Nondet)
    requires StateOk(s)
    ensures var txid := BtcTxId(cancel.txid);
      forall w, i :: CompletedIn(DepositDropped(s, cancel, nd), w, txid, i) <==> DoneBy(s, w, txid, i)
  {
    hide CompletedIn, DoneBy, StateOk, DepositDropped;
    var middle, txid := DepositDropped(s, cancel, nd), BtcTxId(cancel.txid);
    forall w, i ensures CompletedIn(middle, w, txid, i) <==> DoneBy(s, w, txid, i) {
      Replay.DroppedKeepsCompleted(s, cancel, nd, w, txid, i);
      CompletedIsDone(s, w, txid, i);
    }
  }

  /** A cancel of a transaction that completed no withdrawal changes no withdrawal. */
  lemma OtherCancelKeepsWithdrawals(s: State, step: Step, u: UserId, c: Currency, id: Uuid)
    requires step.update.body.CancelBtcTx? && StateOk(s) && RequestAt(s, u, c, id)
    requires forall w, i :: !DoneBy(s, w, BtcTxId(step.update.body.cancel.txid), i)
    ensures RequestAt(Advance(s, step), u, c, id) && RequestOf(Advance(s, step), u, c, id) == RequestOf(s, u, c, id)
  {
    hide StatusSet, DepositDropped, CompletedIn, DoneBy, StateOk, IsExchangeAddress;
    var cancel := step.update.body.cancel;
    DoneAfterDrop(s, cancel, step.nd);
    DroppedLeavesWithdrawals(s, cancel, step.nd, u, c, id);
    StampedRequest(DepositDropped(s, cancel, step.nd), step.update.created, u, c, id);
  }

  lemma RejectedWithholdsNothing(req: W.WithdrawalRequest, reason: string)
    ensures Withheld(req.(status := W.NodeRejected(reason))) == 0
  {}
}
