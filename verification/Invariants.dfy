/**
 What every reachable state satisfies, account by account: stored keys repeat the map
 keys, vote lists and tallies agree, deposits are non-negative and one per outpoint,
 and limit requests exist only for currencies the user holds.
 */
module Invariants {
  import opened Domain
  import opened Collections
  import opened Accounts
  import opened Updates
  import opened StateMachine
  import T = Transactions
  import W = Withdrawals
  import L = Limits
  import X = Exchanges

  ghost predicate RequestOk(u: UserId, c: Currency, id: Uuid, req: W.WithdrawalRequest) {
    req.id == id && req.user == u && req.address.Currency() == c && W.VotesOk(req)
  }

  ghost predicate StoredOrderOk(u: UserId, c: Currency, id: Uuid, o: X.ExchangeOrder) {
    o.id == id && o.user == u && o.currencyFrom == c && X.OrderOk(o)
  }

  ghost predicate AccountOk(u: UserId, c: Currency, info: UserCurrencyInfo) {
    && info.currency == c
    && DepositsOk(info.transactions) && T.Distinct(info.transactions)
    && (forall id :: id in info.withdrawalRequests ==> RequestOk(u, c, id, info.withdrawalRequests[id]))
    && (forall id :: id in info.exchangeRequests ==> StoredOrderOk(u, c, id, info.exchangeRequests[id]))
  }

  ghost predicate StoredLimitOk(u: UserId, c: Currency, user: UserInfo, data: L.LimitChangeData) {
    c in user.currencies && data.user == u && data.currency == c && L.LimitOk(data)
  }

  ghost predicate UserOk(u: UserId, user: UserInfo) {
    && user.username == u
    && (forall c :: c in user.currencies ==> AccountOk(u, c, user.currencies[c]))
    && (forall c :: c in user.limitChangeRequests ==> StoredLimitOk(u, c, user, user.limitChangeRequests[c]))
  }

  ghost predicate StateOk(s: State) {
    forall u :: u in s.users ==> UserOk(u, s.users[u])
  }

  // ---------- Building blocks ----------

  lemma SetAccountOk(s: State, u: UserId, c: Currency, info: UserCurrencyInfo)
    requires StateOk(s) && u in s.users && AccountOk(u, c, info)
    ensures StateOk(SetAccount(s, u, c, info))
  {}

  ghost predicate KeepsAccounts(f: UserCurrencyInfo -> UserCurrencyInfo) {
    forall u, c, info :: AccountOk(u, c, info) ==> AccountOk(u, c, f(info))
  }

  lemma EveryAccountOk(s: State, f: UserCurrencyInfo -> UserCurrencyInfo)
    requires StateOk(s) && KeepsAccounts(f)
    ensures StateOk(EveryAccount(s, f))
  {}

  lemma StatusSetterKeeps(id: Uuid, status: W.WithdrawalRequestStatus)
    requires status.Completed? || status.NodeRejected?
    ensures KeepsAccounts(StatusSetter(id, status))
  {}

  lemma UpsertKeepsDeposits(txs: seq<T.Transaction>, tx: T.BtcTransaction)
    requires DepositsOk(txs) && T.Distinct(txs)
    ensures DepositsOk(T.Upsert(txs, tx)) && T.Distinct(T.Upsert(txs, tx))
  {}

  lemma RemoveKeepsDeposits(txs: seq<T.Transaction>, o: T.Outpoint)
    requires DepositsOk(txs) && T.Distinct(txs)
    ensures DepositsOk(T.Remove(txs, o)) && T.Distinct(T.Remove(txs, o))
  {}

  // ---------- The handlers ----------

  lemma SignedUpOk(s: State, created: Time, i: SignupInfo)
    requires StateOk(s) && SignedUp(s, created, i).Ok?
    ensures StateOk(SignedUp(s, created, i).value)
  {}

  lemma WithdrawalCreatedOk(s: State, created: Time, w: W.WithdrawalRequestInfo)
    requires StateOk(s) && WithdrawalCreated(s, created, w).Ok?
    ensures StateOk(WithdrawalCreated(s, created, w).value.state)
  {
    var c := w.address.Currency();
    var info := Account(s, w.user, c);
    assert UserOk(w.user, s.users[w.user]);
    SetAccountOk(s, w.user, c, info.(withdrawalRequests := info.withdrawalRequests[w.id := W.NewRequest(created, w)]));
  }

  lemma WithdrawalVotedOk(s: State, d: W.WithdrawalRequestDecisionInfo)
    requires StateOk(s) && WithdrawalVoted(s, d).Ok?
    ensures StateOk(WithdrawalVoted(s, d).value.state)
  {
    var info := Account(s, d.userId, d.currency);
    var req := info.withdrawalRequests[d.requestId];
    assert UserOk(d.userId, s.users[d.userId]);
    assert AccountOk(d.userId, d.currency, info);
    assert RequestOk(d.userId, d.currency, d.requestId, req);
    W.VoteMovesKey(req, d);
    W.VoteFrame(req, d);
    SetAccountOk(s, d.userId, d.currency,
      info.(withdrawalRequests := info.withdrawalRequests[d.requestId := W.Vote(req, d).value.0]));
  }

  lemma DepositAddressAddedOk(s: State, u: UserId, a: CurrencyAddress)
    requires StateOk(s) && DepositAddressAdded(s, u, a).Ok?
    ensures StateOk(DepositAddressAdded(s, u, a).value)
  {
    var info := Account(s, u, a.Currency());
    assert UserOk(u, s.users[u]);
    SetAccountOk(s, u, a.Currency(), info.(depositInfo := info.depositInfo + [a]));
  }

  lemma BtcTxUpdatedOk(s: State, tx: T.BtcTransaction, nd: Nondet)
    requires StateOk(s)
    ensures StateOk(BtcTxUpdated(s, tx, nd))
  {
    var owner := FindUserAddress(s, BtcAddress(tx.address), nd);
    if !IsExchangeAddress(s, BtcAddress(tx.address)) && owner.Some? {
      var info := Account(s, owner.value, BTC);
      assert UserOk(owner.value, s.users[owner.value]);
      UpsertKeepsDeposits(info.transactions, tx);
      SetAccountOk(s, owner.value, BTC, info.(transactions := T.Upsert(info.transactions, tx)));
    }
  }

  lemma DepositDroppedOk(s: State, cancel: T.TxCancel, nd: Nondet)
    requires StateOk(s)
    ensures StateOk(DepositDropped(s, cancel, nd))
  {
    var owner := FindUserAddress(s, BtcAddress(cancel.address), nd);
    if owner.Some? {
      var info := Account(s, owner.value, BTC);
      assert UserOk(owner.value, s.users[owner.value]);
      RemoveKeepsDeposits(info.transactions, cancel.Key());
      SetAccountOk(s, owner.value, BTC, info.(transactions := T.Remove(info.transactions, cancel.Key())));
    }
  }

  lemma StatusSetOk(s: State, id: Uuid, status: W.WithdrawalRequestStatus)
    requires StateOk(s) && (status.Completed? || status.NodeRejected?)
    ensures StateOk(StatusSet(s, id, status))
  {
    StatusSetterKeeps(id, status);
    EveryAccountOk(s, StatusSetter(id, status));
  }

  lemma BtcTxCancelledOk(s: State, cancel: T.TxCancel, nd: Nondet)
    requires StateOk(s)
    ensures StateOk(BtcTxCancelled(s, cancel, nd))
  {
    DepositDroppedOk(s, cancel, nd);
    var middle := DepositDropped(s, cancel, nd);
    var id := FindWithdrawal(middle, BtcTxId(cancel.txid), nd);
    if id.Some? {
      StatusSetOk(middle, id.value, W.NodeRejected("Tx canceled"));
    }
  }

  lemma TokensUpdatedOk(s: State, t: TokenUpdate)
    requires StateOk(s) && TokensUpdated(s, t).Ok?
    ensures StateOk(TokensUpdated(s, t).value)
  {
    assert UserOk(t.user, s.users[t.user]);
    if t.action.Enable? {
      SetAccountOk(s, t.user, ERC20(t.token), NewAccount(ERC20(t.token)));
    }
  }

  lemma LimitRequestedOk(s: State, r: L.LimitChangeUpd, nd: Nondet)
    requires StateOk(s) && LimitRequested(s, r, nd).Ok?
    ensures StateOk(LimitRequested(s, r, nd).value)
  {}

  lemma LimitCancelledOk(s: State, r: L.LimitCancelData)
    requires StateOk(s) && LimitCancelled(s, r).Ok?
    ensures StateOk(LimitCancelled(s, r).value)
  {}

  lemma LimitVotedOk(s: State, d: L.LimitChangeDecision)
    requires StateOk(s) && LimitVoted(s, d).Ok?
    ensures StateOk(LimitVoted(s, d).value)
  {
    var user := s.users[d.user];
    assert UserOk(d.user, user);
    assert StoredLimitOk(d.user, d.currency, user, user.limitChangeRequests[d.currency]);
    L.DecideLimitKeepsOk(user.limitChangeRequests[d.currency], d);
    var after := LimitVoted(s, d).value.users[d.user];
    forall c | c in after.currencies ensures AccountOk(d.user, c, after.currencies[c]) {
      assert AccountOk(d.user, c, user.currencies[c]);
    }
    assert UserOk(d.user, after);
  }

  lemma SpentClearedOk(s: State, span: L.LimitSpan)
    requires StateOk(s)
    ensures StateOk(EveryAccount(s, SpentClearer(span)))
  {
    EveryAccountOk(s, SpentClearer(span));
  }

  lemma OrderRequestedOk(s: State, r: X.ExchangeOrderUpd)
    requires StateOk(s) && OrderRequested(s, r).Ok?
    ensures StateOk(OrderRequested(s, r).value)
  {
    var info := Account(s, r.user, r.currencyFrom);
    assert UserOk(r.user, s.users[r.user]);
    SetAccountOk(s, r.user, r.currencyFrom, info.(exchangeRequests := info.exchangeRequests[r.id := X.NewOrder(r)]));
  }

  lemma OrderDecidedOk(s: State, d: X.ExchangeDecision)
    requires StateOk(s) && OrderDecided(s, d).Ok?
    ensures StateOk(OrderDecided(s, d).value.0)
  {
    var info := Account(s, d.user, d.currencyFrom);
    assert UserOk(d.user, s.users[d.user]);
    assert AccountOk(d.user, d.currencyFrom, info);
    assert StoredOrderOk(d.user, d.currencyFrom, d.id, info.exchangeRequests[d.id]);
    X.FirstDecisionSettles(info.exchangeRequests[d.id], d);
    var order := X.DecideOrder(info.exchangeRequests[d.id], d).value.0;
    SetAccountOk(s, d.user, d.currencyFrom, info.(exchangeRequests := info.exchangeRequests[d.id := order]));
  }

  lemma OrderSettledOk(s: State, d: X.ExchangeDecision)
    requires StateOk(s) && OrderSettled(s, d).Ok?
    ensures StateOk(OrderSettled(s, d).value)
  {
    OrderDecidedOk(s, d);
    var half := OrderDecided(s, d).value;
    if half.1 {
      var info := Account(half.0, d.user, d.currencyTo);
      assert UserOk(d.user, half.0.users[d.user]);
      assert AccountOk(d.user, d.currencyTo, info);
      SetAccountOk(half.0, d.user, d.currencyTo,
        info.(incomingExchangeRequests := info.incomingExchangeRequests[d.id := d.amountTo]));
    }
  }

  lemma SettingsOk(s: State, body: UpdateBody)
    requires StateOk(s) && IsSettings(body) && SettingsChanged(s, body).Ok?
    ensures StateOk(SettingsChanged(s, body).value)
  {
    assert UserOk(SettingsUser(body), s.users[SettingsUser(body)]);
  }

  ghost predicate SnapshotOk(body: UpdateBody) {
    body.Snapshot? ==> StateOk(body.snapshot)
  }

  lemma LimitsOk(s: State, body: UpdateBody, nd: Nondet)
    requires StateOk(s) && AboutLimits(body) && LimitsHandled(s, body, nd).Ok?
    ensures StateOk(LimitsHandled(s, body, nd).value)
  {
    match body {
      case LimitsChangeRequest(r) => LimitRequestedOk(s, r, nd);
      case CancelLimitChange(r) => LimitCancelledOk(s, r);
      case LimitChangeDecision(d) => LimitVotedOk(s, d);
    }
  }

  lemma UserStepOk(s: State, upd: StateUpdate, nd: Nondet)
    requires StateOk(s) && AboutUsers(upd.body) && HandleUser(s, upd.created, upd.body, nd).Ok?
    ensures StateOk(HandleUser(s, upd.created, upd.body, nd).value)
  {
    if IsSettings(upd.body) {
      SettingsOk(s, upd.body);
    } else if AboutLimits(upd.body) {
      LimitsOk(s, upd.body, nd);
    } else {
      match upd.body {
        case Signup(i) => SignedUpOk(s, upd.created, i);
        case DepositAddress(u, a) => DepositAddressAddedOk(s, u, a);
        case UpdateTokens(t) => TokensUpdatedOk(s, t);
        case GenInvite(_) =>
      }
    }
  }

  lemma OtherStepOk(s: State, upd: StateUpdate, nd: Nondet)
    requires StateOk(s) && !AboutUsers(upd.body) && SnapshotOk(upd.body)
      && HandleOther(s, upd.created, upd.body, nd).Ok?
    ensures StateOk(HandleOther(s, upd.created, upd.body, nd).value.state)
  {
    match upd.body {
      case CreateWithdrawalRequest(w) => WithdrawalCreatedOk(s, upd.created, w);
      case WithdrawalRequestDecision(d) => WithdrawalVotedOk(s, d);
      case WithdrawalRequestComplete(i) => StatusSetOk(s, i.id, i.Status());
      case WithdrawalRequestNodeRejected(i) => StatusSetOk(s, i.id, W.NodeRejected(i.reason));
      case UpdateBtcTx(tx) => BtcTxUpdatedOk(s, tx, nd);
      case CancelBtcTx(c) => BtcTxCancelledOk(s, c, nd);
      case ClearLimits(span) => SpentClearedOk(s, span);
      case ExchangeRequest(r) => OrderRequestedOk(s, r);
      case ExchangeDecision(d) => OrderSettledOk(s, d);
      case _ =>
    }
  }

  /** Every accepted update keeps the invariant. */
  lemma StepKeepsOk(s: State, upd: StateUpdate, nd: Nondet)
    requires StateOk(s) && SnapshotOk(upd.body) && Apply(s, upd, nd).Ok?
    ensures StateOk(Apply(s, upd, nd).value.state)
  {
    if AboutUsers(upd.body) {
      UserStepOk(s, upd, nd);
    } else {
      OtherStepOk(s, upd, nd);
    }
  }
}
