/**
 One exchange is recorded in three places: the order under the currency sold, the amount
 under the currency bought, and the record in the exchange wallet. In every committed
 state the three agree; the wallet's cached balances agree with recomputation; and no
 currency is created or lost.
 */
module ExchangeAgreement {
  import opened Domain
  import opened Collections
  import opened Accounts
  import opened Updates
  import opened StateMachine
  import opened Invariants
  import opened Runs
  import T = Transactions
  import W = Withdrawals
  import L = Limits
  import X = Exchanges

  ghost predicate OrderAt(s: State, u: UserId, c: Currency, id: Uuid) {
    Has(s, u, c) && id in Account(s, u, c).exchangeRequests
  }

  ghost function OrderOf(s: State, u: UserId, c: Currency, id: Uuid): X.ExchangeOrder
    requires OrderAt(s, u, c, id)
  {
    Account(s, u, c).exchangeRequests[id]
  }

  ghost predicate IncomingAt(s: State, u: UserId, c: Currency, id: Uuid) {
    Has(s, u, c) && id in Account(s, u, c).incomingExchangeRequests
  }

  ghost function AmountAt(s: State, u: UserId, c: Currency, id: Uuid): u64
    requires IncomingAt(s, u, c, id)
  {
    Account(s, u, c).incomingExchangeRequests[id]
  }

  /** The record `r` is an order of its user that completed. */
  ghost predicate Backed(s: State, id: Uuid, r: X.ExchangeOrderUpd) {
    r.id == id && OrderAt(s, r.user, r.currencyFrom, id) && OrderOf(s, r.user, r.currencyFrom, id).ToUpd() == r
    && OrderOf(s, r.user, r.currencyFrom, id).status.Completed?
  }

  /** A completed order has its record in the wallet and its amount under the currency bought. */
  ghost predicate Honoured(s: State, u: UserId, id: Uuid, o: X.ExchangeOrder) {
    && id in s.exchangeState.exchanges && s.exchangeState.exchanges[id] == o.ToUpd()
    && IncomingAt(s, u, o.currencyTo, id) && AmountAt(s, u, o.currencyTo, id) == o.amountTo
  }

  /** An incoming amount belongs to a record of the wallet. */
  ghost predicate Accounted(s: State, u: UserId, c: Currency, id: Uuid) {
    && id in s.exchangeState.exchanges
    && s.exchangeState.exchanges[id].user == u && s.exchangeState.exchanges[id].currencyTo == c
  }

  ghost predicate UniqueOrders(s: State) {
    forall u, c, v, d, id :: OrderAt(s, u, c, id) && OrderAt(s, v, d, id) ==> u == v && c == d
  }

  /** The three copies agree. */
  ghost predicate Agreement(s: State) {
    && UniqueOrders(s)
    && (forall u, c, id :: OrderAt(s, u, c, id) && OrderOf(s, u, c, id).status.Completed? ==>
          Honoured(s, u, id, OrderOf(s, u, c, id)))
    && (forall id :: id in s.exchangeState.exchanges ==> Backed(s, id, s.exchangeState.exchanges[id]))
    && (forall u, c, id :: IncomingAt(s, u, c, id) ==> Accounted(s, u, c, id))
  }

  /** An order is completed exactly when its record is in the wallet, exactly when its amount has come in. */
  lemma CompletedExactlyWhenRecorded(s: State, u: UserId, c: Currency, id: Uuid)
    requires StateOk(s) && Agreement(s) && OrderAt(s, u, c, id)
    ensures var o := OrderOf(s, u, c, id);
      && (o.status.Completed? <==> id in s.exchangeState.exchanges)
      && (o.status.Completed? <==> IncomingAt(s, u, o.currencyTo, id))
      && (o.status.Completed? ==>
            s.exchangeState.exchanges[id] == o.ToUpd() && AmountAt(s, u, o.currencyTo, id) == o.amountTo)
      && (forall d :: IncomingAt(s, u, d, id) ==> o.status.Completed? && d == o.currencyTo)
  {
    if id in s.exchangeState.exchanges {
      var r := s.exchangeState.exchanges[id];
      assert Backed(s, id, r);
      assert OrderAt(s, r.user, r.currencyFrom, id);
    }
    forall d | IncomingAt(s, u, d, id) ensures Accounted(s, u, d, id) {
    }
  }

  // ---------- Hypotheses on one step ----------

  /** No record of the wallet, and no order anywhere else, has the id of the order being placed. */
  ghost predicate Unclaimed(s: State, r: X.ExchangeOrderUpd) {
    && r.id !in s.exchangeState.exchanges
    && forall u, c :: OrderAt(s, u, c, r.id) ==> u == r.user && c == r.currencyFrom
  }

  /** The decision repeats what the stored order says about the amount bought. */
  ghost predicate RepeatsOrder(s: State, d: X.ExchangeDecision) {
    OrderAt(s, d.user, d.currencyFrom, d.id) ==>
      var o := OrderOf(s, d.user, d.currencyFrom, d.id);
      d.currencyTo == o.currencyTo && d.amountTo == o.amountTo
  }

  /** The account takes no part in a completed exchange. */
  ghost predicate Unexchanged(info: UserCurrencyInfo) {
    && info.incomingExchangeRequests == map[]
    && forall id :: id in info.exchangeRequests ==> !info.exchangeRequests[id].status.Completed?
  }

  /** What an accepted update must respect to keep the three copies in agreement; less will not do (`StepAgreesIff`). */
  ghost predicate Careful(s: State, body: UpdateBody) {
    match body
    case ExchangeRequest(r) => Unclaimed(s, r)
    case ExchangeDecision(d) => d.decision.Confirm? ==> RepeatsOrder(s, d)
    case UpdateTokens(t) =>
      t.action.Disable? && Has(s, t.user, ERC20(t.token)) ==> Unexchanged(Account(s, t.user, ERC20(t.token)))
    case Snapshot(st) => Agreement(st)
    case _ => true
  }

  // ---------- Steps that leave exchanges alone ----------

  ghost predicate SameExchanges(s: State, s': State) {
    && s'.exchangeState.exchanges == s.exchangeState.exchanges
    && (forall u, c, id :: OrderAt(s', u, c, id) <==> OrderAt(s, u, c, id))
    && (forall u, c, id :: OrderAt(s, u, c, id) ==> OrderOf(s', u, c, id) == OrderOf(s, u, c, id))
    && (forall u, c, id :: IncomingAt(s', u, c, id) <==> IncomingAt(s, u, c, id))
    && (forall u, c, id :: IncomingAt(s, u, c, id) ==> AmountAt(s', u, c, id) == AmountAt(s, u, c, id))
  }

  lemma SameExchangesAgree(s: State, s': State)
    requires Agreement(s) && SameExchanges(s, s')
    ensures Agreement(s')
  {
    forall u, c, id | OrderAt(s', u, c, id) && OrderOf(s', u, c, id).status.Completed?
      ensures Honoured(s', u, id, OrderOf(s', u, c, id))
    {
      assert Honoured(s, u, id, OrderOf(s, u, c, id));
    }
    forall id | id in s'.exchangeState.exchanges ensures Backed(s', id, s'.exchangeState.exchanges[id]) {
      assert Backed(s, id, s.exchangeState.exchanges[id]);
    }
    forall u, c, id | IncomingAt(s', u, c, id) ensures Accounted(s', u, c, id) {
      assert Accounted(s, u, c, id);
    }
  }

  ghost predicate SameOrders(before: UserCurrencyInfo, after: UserCurrencyInfo) {
    && after.exchangeRequests == before.exchangeRequests
    && after.incomingExchangeRequests == before.incomingExchangeRequests
  }

  /** Replacing a user whose orders and incoming amounts stay the same; new accounts start without any. */
  ghost predicate SameUserOrders(s: State, u: UserId, user: UserInfo) {
    && (u in s.users ==> s.users[u].currencies.Keys <= user.currencies.Keys)
    && (forall c :: c in user.currencies ==>
          SameOrders(if Has(s, u, c) then Account(s, u, c) else NewAccount(c), user.currencies[c]))
  }

  lemma SetUserKeepsExchanges(s: State, u: UserId, user: UserInfo)
    requires SameUserOrders(s, u, user)
    ensures SameExchanges(s, SetUser(s, u, user))
  {
  }

  lemma EveryAccountKeepsExchanges(s: State, f: UserCurrencyInfo -> UserCurrencyInfo)
    requires forall info :: SameOrders(info, f(info))
    ensures SameExchanges(s, EveryAccount(s, f))
  {}

  lemma StatusSetKeepsExchanges(s: State, id: Uuid, status: W.WithdrawalRequestStatus)
    ensures SameExchanges(s, StatusSet(s, id, status))
  {
    EveryAccountKeepsExchanges(s, StatusSetter(id, status));
  }

  lemma SetTransactionsKeepsExchanges(s: State, u: UserId, c: Currency, txs: seq<T.Transaction>)
    requires Has(s, u, c)
    ensures SameExchanges(s, SetAccount(s, u, c, Account(s, u, c).(transactions := txs)))
  {
    hide SameExchanges;
    var user := s.users[u];
    SetUserKeepsExchanges(s, u, user.(currencies := user.currencies[c := user.currencies[c].(transactions := txs)]));
  }

  lemma SameUsersKeepExchanges(s: State, s': State)
    requires s'.users == s.users && s'.exchangeState.exchanges == s.exchangeState.exchanges
    ensures SameExchanges(s, s')
  {}

  lemma BtcTxUpdatedKeepsExchanges(s: State, tx: T.BtcTransaction, nd: Nondet)
    ensures SameExchanges(s, BtcTxUpdated(s, tx, nd))
  {
    hide SameExchanges, T.Upsert;
    var owner := FindUserAddress(s, BtcAddress(tx.address), nd);
    if IsExchangeAddress(s, BtcAddress(tx.address)) {
      SameUsersKeepExchanges(s, BtcTxUpdated(s, tx, nd));
    } else if owner.Some? {
      SetTransactionsKeepsExchanges(s, owner.value, BTC, T.Upsert(Account(s, owner.value, BTC).transactions, tx));
    } else {
      SameUsersKeepExchanges(s, s);
    }
  }

  lemma DepositDroppedKeepsExchanges(s: State, cancel: T.TxCancel, nd: Nondet)
    ensures SameExchanges(s, DepositDropped(s, cancel, nd))
  {
    hide SameExchanges, T.Remove;
    var owner := FindUserAddress(s, BtcAddress(cancel.address), nd);
    if owner.Some? {
      var txs := Account(s, owner.value, BTC).transactions;
      SetTransactionsKeepsExchanges(s, owner.value, BTC, T.Remove(txs, cancel.Key()));
    } else {
      SameUsersKeepExchanges(s, s);
    }
  }

  lemma SameExchangesTrans(s: State, middle: State, s': State)
    requires SameExchanges(s, middle) && SameExchanges(middle, s')
    ensures SameExchanges(s, s')
  {}

  lemma RevertedKeepsExchanges(middle: State, cancel: T.TxCancel, nd: Nondet)
    ensures SameExchanges(middle, WithdrawalReverted(middle, cancel, nd))
  {
    var id := FindWithdrawal(middle, BtcTxId(cancel.txid), nd);
    if id.Some? {
      StatusSetKeepsExchanges(middle, id.value, W.NodeRejected("Tx canceled"));
    }
  }

  lemma BtcTxCancelledKeepsExchanges(s: State, cancel: T.TxCancel, nd: Nondet)
    ensures SameExchanges(s, BtcTxCancelled(s, cancel, nd))
  {
    hide SameExchanges, DepositDropped, WithdrawalReverted;
    if IsExchangeAddress(s, BtcAddress(cancel.address)) {
      SameUsersKeepExchanges(s, BtcTxCancelled(s, cancel, nd));
    } else {
      var middle := DepositDropped(s, cancel, nd);
      DepositDroppedKeepsExchanges(s, cancel, nd);
      RevertedKeepsExchanges(middle, cancel, nd);
      SameExchangesTrans(s, middle, WithdrawalReverted(middle, cancel, nd));
    }
  }

  lemma SignedUpKeepsExchanges(s: State, created: Time, i: SignupInfo)
    requires SignedUp(s, created, i).Ok?
    ensures SameExchanges(s, SignedUp(s, created, i).value)
  {}

  lemma DepositAddressAddedKeepsExchanges(s: State, u: UserId, a: CurrencyAddress)
    requires DepositAddressAdded(s, u, a).Ok?
    ensures SameExchanges(s, DepositAddressAdded(s, u, a).value)
  {
    SetUserKeepsExchanges(s, u, DepositAddressAdded(s, u, a).value.users[u]);
  }

  lemma TokenEnabledKeepsExchanges(s: State, t: TokenUpdate)
    requires t.action.Enable? && TokensUpdated(s, t).Ok?
    ensures SameExchanges(s, TokensUpdated(s, t).value)
  {
    SetUserKeepsExchanges(s, t.user, TokensUpdated(s, t).value.users[t.user]);
  }

  lemma LimitRequestedKeepsExchanges(s: State, r: L.LimitChangeUpd, nd: Nondet)
    requires LimitRequested(s, r, nd).Ok?
    ensures SameExchanges(s, LimitRequested(s, r, nd).value)
  {
    SetUserKeepsExchanges(s, r.user, LimitRequested(s, r, nd).value.users[r.user]);
  }

  lemma LimitCancelledKeepsExchanges(s: State, r: L.LimitCancelData)
    requires LimitCancelled(s, r).Ok?
    ensures SameExchanges(s, LimitCancelled(s, r).value)
  {
    SetUserKeepsExchanges(s, r.user, LimitCancelled(s, r).value.users[r.user]);
  }

  lemma LimitVotedKeepsExchanges(s: State, d: L.LimitChangeDecision)
    requires LimitVoted(s, d).Ok?
    ensures SameExchanges(s, LimitVoted(s, d).value)
  {
    SetUserKeepsExchanges(s, d.user, LimitVoted(s, d).value.users[d.user]);
  }

  lemma SettingsKeepExchanges(s: State, body: UpdateBody)
    requires IsSettings(body) && SettingsChanged(s, body).Ok?
    ensures SameExchanges(s, SettingsChanged(s, body).value)
  {
    SetUserKeepsExchanges(s, SettingsUser(body), WithSettings(s.users[SettingsUser(body)], body));
  }

  predicate ExchangeRelevant(body: UpdateBody) {
    || body.ExchangeRequest? || body.ExchangeDecision? || body.Snapshot?
    || (body.UpdateTokens? && body.tokens.action.Disable?)
  }

  lemma LimitsKeepExchanges(s: State, body: UpdateBody, nd: Nondet)
    requires AboutLimits(body) && LimitsHandled(s, body, nd).Ok?
    ensures SameExchanges(s, LimitsHandled(s, body, nd).value)
  {
    match body {
      case LimitsChangeRequest(r) => LimitRequestedKeepsExchanges(s, r, nd);
      case CancelLimitChange(r) => LimitCancelledKeepsExchanges(s, r);
      case LimitChangeDecision(d) => LimitVotedKeepsExchanges(s, d);
    }
  }

  lemma UserStepKeepsExchanges(s: State, upd: StateUpdate, nd: Nondet)
    requires AboutUsers(upd.body) && !ExchangeRelevant(upd.body) && HandleUser(s, upd.created, upd.body, nd).Ok?
    ensures SameExchanges(s, HandleUser(s, upd.created, upd.body, nd).value)
  {
    hide SameExchanges, SignedUp, DepositAddressAdded, TokensUpdated, LimitsHandled, SettingsChanged;
    if IsSettings(upd.body) {
      SettingsKeepExchanges(s, upd.body);
    } else if AboutLimits(upd.body) {
      LimitsKeepExchanges(s, upd.body, nd);
    } else {
      match upd.body {
        case Signup(i) => SignedUpKeepsExchanges(s, upd.created, i);
        case DepositAddress(u, a) => DepositAddressAddedKeepsExchanges(s, u, a);
        case UpdateTokens(t) => TokenEnabledKeepsExchanges(s, t);
        case GenInvite(_) => SameUsersKeepExchanges(s, HandleUser(s, upd.created, upd.body, nd).value);
      }
    }
  }

  lemma WithdrawalCreatedKeepsExchanges(s: State, created: Time, w: W.WithdrawalRequestInfo)
    requires WithdrawalCreated(s, created, w).Ok?
    ensures SameExchanges(s, WithdrawalCreated(s, created, w).value.state)
  {
    SetUserKeepsExchanges(s, w.user, WithdrawalCreated(s, created, w).value.state.users[w.user]);
  }

  lemma WithdrawalVotedKeepsExchanges(s: State, d: W.WithdrawalRequestDecisionInfo)
    requires WithdrawalVoted(s, d).Ok?
    ensures SameExchanges(s, WithdrawalVoted(s, d).value.state)
  {
    SetUserKeepsExchanges(s, d.userId, WithdrawalVoted(s, d).value.state.users[d.userId]);
  }

  lemma OtherStepKeepsExchanges(s: State, upd: StateUpdate, nd: Nondet)
    requires !AboutUsers(upd.body) && !ExchangeRelevant(upd.body) && HandleOther(s, upd.created, upd.body, nd).Ok?
    ensures SameExchanges(s, HandleOther(s, upd.created, upd.body, nd).value.state)
  {
    hide SameExchanges, WithdrawalCreated, WithdrawalVoted, StatusSet, BtcTxUpdated, BtcTxCancelled, EveryAccount;
    match upd.body {
      case CreateWithdrawalRequest(w) => WithdrawalCreatedKeepsExchanges(s, upd.created, w);
      case WithdrawalRequestDecision(d) => WithdrawalVotedKeepsExchanges(s, d);
      case WithdrawalRequestComplete(i) => StatusSetKeepsExchanges(s, i.id, i.Status());
      case WithdrawalRequestNodeRejected(i) => StatusSetKeepsExchanges(s, i.id, W.NodeRejected(i.reason));
      case UpdateBtcTx(tx) => BtcTxUpdatedKeepsExchanges(s, tx, nd);
      case CancelBtcTx(c) => BtcTxCancelledKeepsExchanges(s, c, nd);
      case ClearLimits(span) => EveryAccountKeepsExchanges(s, SpentClearer(span));
      case BestBtcBlock(_) => SameUsersKeepExchanges(s, HandleOther(s, upd.created, upd.body, nd).value.state);
      case ExchangeAddress(_) => SameUsersKeepExchanges(s, HandleOther(s, upd.created, upd.body, nd).value.state);
    }
  }

  lemma QuietStepKeepsExchanges(s: State, upd: StateUpdate, nd: Nondet)
    requires Handle(s, upd.created, upd.body, nd).Ok? && !ExchangeRelevant(upd.body)
    ensures SameExchanges(s, Handle(s, upd.created, upd.body, nd).value.state)
  {
    if AboutUsers(upd.body) {
      UserStepKeepsExchanges(s, upd, nd);
    } else {
      OtherStepKeepsExchanges(s, upd, nd);
    }
  }

  // ---------- What the exchange steps change ----------

  /** `s'` differs from `s` in one order, now `order`, and perhaps in one incoming amount and one wallet record. */
  ghost predicate OrderChanged(s: State, s': State, order: X.ExchangeOrder) {
    && (forall u, c, id :: OrderAt(s', u, c, id) <==> OrderAt(s, u, c, id) || IsHere(order, u, c, id))
    && (forall u, c, id :: OrderAt(s', u, c, id) ==>
          OrderOf(s', u, c, id) == if IsHere(order, u, c, id) then order else OrderOf(s, u, c, id))
  }

  predicate IsHere(order: X.ExchangeOrder, u: UserId, c: Currency, id: Uuid) {
    u == order.user && c == order.currencyFrom && id == order.id
  }

  ghost predicate SameIncoming(s: State, s': State) {
    && (forall u, c, id :: IncomingAt(s', u, c, id) <==> IncomingAt(s, u, c, id))
    && (forall u, c, id :: IncomingAt(s, u, c, id) ==> AmountAt(s', u, c, id) == AmountAt(s, u, c, id))
  }

  ghost predicate IncomingAddedTo(s: State, s': State, v: UserId, d: Currency, i: Uuid, amount: u64) {
    && (forall u, c, id :: IncomingAt(s', u, c, id) <==> IncomingAt(s, u, c, id) || (u == v && c == d && id == i))
    && (forall u, c, id :: IncomingAt(s', u, c, id) ==>
          AmountAt(s', u, c, id) == if u == v && c == d && id == i then amount else AmountAt(s, u, c, id))
  }

  ghost predicate SameOrderBook(s: State, s': State) {
    && (forall u, c, id :: OrderAt(s', u, c, id) <==> OrderAt(s, u, c, id))
    && (forall u, c, id :: OrderAt(s, u, c, id) ==> OrderOf(s', u, c, id) == OrderOf(s, u, c, id))
  }

  lemma SetOrder(s: State, u: UserId, c: Currency, order: X.ExchangeOrder)
    requires Has(s, u, c) && order.user == u && order.currencyFrom == c
    ensures var info := Account(s, u, c);
      var s' := SetAccount(s, u, c, info.(exchangeRequests := info.exchangeRequests[order.id := order]));
      OrderChanged(s, s', order)
  {
  }

  lemma SetOrderKeepsIncoming(s: State, u: UserId, c: Currency, order: X.ExchangeOrder)
    requires Has(s, u, c)
    ensures var info := Account(s, u, c);
      SameIncoming(s, SetAccount(s, u, c, info.(exchangeRequests := info.exchangeRequests[order.id := order])))
  {}

  lemma SetIncoming(s: State, u: UserId, c: Currency, id: Uuid, amount: u64)
    requires Has(s, u, c)
    ensures var info := Account(s, u, c);
      var s' := SetAccount(s, u, c, info.(incomingExchangeRequests := info.incomingExchangeRequests[id := amount]));
      SameOrderBook(s, s') && IncomingAddedTo(s, s', u, c, id, amount)
  {
  }

  /** An undecided order added, or an order that is not completed, changes nothing about the agreement. */
  lemma UncompletedOrderAgrees(s: State, s': State, order: X.ExchangeOrder)
    requires Agreement(s) && OrderChanged(s, s', order) && SameIncoming(s, s')
      && s'.exchangeState.exchanges == s.exchangeState.exchanges
    requires !order.status.Completed? && order.id !in s.exchangeState.exchanges
    requires forall u, c :: OrderAt(s, u, c, order.id) ==> IsHere(order, u, c, order.id)
    ensures Agreement(s')
  {
    forall u, c, id | OrderAt(s', u, c, id) && OrderOf(s', u, c, id).status.Completed?
      ensures Honoured(s', u, id, OrderOf(s', u, c, id))
    {
      assert Honoured(s, u, id, OrderOf(s, u, c, id));
    }
    forall id | id in s'.exchangeState.exchanges ensures Backed(s', id, s'.exchangeState.exchanges[id]) {
      assert Backed(s, id, s.exchangeState.exchanges[id]);
    }
    forall u, c, id | IncomingAt(s', u, c, id) ensures Accounted(s', u, c, id) {
      assert Accounted(s, u, c, id);
    }
  }

  /** Order first, amount second: together. */
  lemma ThroughMiddle(s: State, middle: State, s': State, order: X.ExchangeOrder)
    requires OrderChanged(s, middle, order) && SameIncoming(s, middle)
    requires SameOrderBook(middle, s')
      && IncomingAddedTo(middle, s', order.user, order.currencyTo, order.id, order.amountTo)
    ensures OrderChanged(s, s', order)
    ensures IncomingAddedTo(s, s', order.user, order.currencyTo, order.id, order.amountTo)
  {}

  /** An order newly completed in `s'`, with its record and its amount. */
  ghost predicate Completion(s: State, s': State, order: X.ExchangeOrder) {
    && OrderChanged(s, s', order)
    && IncomingAddedTo(s, s', order.user, order.currencyTo, order.id, order.amountTo)
    && s'.exchangeState.exchanges == s.exchangeState.exchanges[order.id := order.ToUpd()]
    && order.status.Completed? && order.id !in s.exchangeState.exchanges
    && (forall u, c :: OrderAt(s, u, c, order.id) ==> IsHere(order, u, c, order.id))
    && (forall u, c :: !IncomingAt(s, u, c, order.id))
  }

  lemma CompletionHonours(s: State, s': State, order: X.ExchangeOrder, u: UserId, c: Currency, id: Uuid)
    requires Agreement(s) && Completion(s, s', order)
    requires OrderAt(s', u, c, id) && OrderOf(s', u, c, id).status.Completed?
    ensures Honoured(s', u, id, OrderOf(s', u, c, id))
  {}

  lemma CompletionBacks(s: State, s': State, order: X.ExchangeOrder, id: Uuid)
    requires Agreement(s) && Completion(s, s', order) && id in s'.exchangeState.exchanges
    ensures Backed(s', id, s'.exchangeState.exchanges[id])
  {}

  /** A completed order, its record and its amount, added together, keep the agreement. */
  lemma CompletedOrderAgrees(s: State, s': State, order: X.ExchangeOrder)
    requires Agreement(s) && Completion(s, s', order)
    ensures Agreement(s')
  {
    forall u, c, id | OrderAt(s', u, c, id) && OrderOf(s', u, c, id).status.Completed?
      ensures Honoured(s', u, id, OrderOf(s', u, c, id))
    {
      CompletionHonours(s, s', order, u, c, id);
    }
    forall id | id in s'.exchangeState.exchanges ensures Backed(s', id, s'.exchangeState.exchanges[id]) {
      CompletionBacks(s, s', order, id);
    }
    forall u, c, id | IncomingAt(s', u, c, id) ensures Accounted(s', u, c, id) {
      if id != order.id {
        assert Accounted(s, u, c, id);
      }
    }
  }

  // ---------- Placing an order ----------

  lemma OrderRequestedAgrees(s: State, r: X.ExchangeOrderUpd)
    requires Agreement(s) && OrderRequested(s, r).Ok? && Unclaimed(s, r)
    ensures Agreement(OrderRequested(s, r).value)
  {
    SetOrder(s, r.user, r.currencyFrom, X.NewOrder(r));
    SetOrderKeepsIncoming(s, r.user, r.currencyFrom, X.NewOrder(r));
    UncompletedOrderAgrees(s, OrderRequested(s, r).value, X.NewOrder(r));
  }

  /** In agreement an order that is not completed has the only order of its id, and no record. */
  lemma OpenOrderIsUnclaimed(s: State, u: UserId, c: Currency, id: Uuid)
    requires Agreement(s) && OrderAt(s, u, c, id) && !OrderOf(s, u, c, id).status.Completed?
    ensures id !in s.exchangeState.exchanges
    ensures forall v, d :: OrderAt(s, v, d, id) ==> v == u && d == c
  {
    if id in s.exchangeState.exchanges {
      RecordedIsCompleted(s, u, c, id);
    }
  }

  lemma RecordedIsCompleted(s: State, u: UserId, c: Currency, id: Uuid)
    requires Agreement(s) && OrderAt(s, u, c, id) && id in s.exchangeState.exchanges
    ensures OrderOf(s, u, c, id).status.Completed?
  {
    assert Backed(s, id, s.exchangeState.exchanges[id]);
  }

  /** Placing an order keeps the agreement exactly when its id is not claimed by a record, or by an order elsewhere. */
  lemma RequestAgreesIff(s: State, r: X.ExchangeOrderUpd)
    requires Agreement(s) && OrderRequested(s, r).Ok?
    ensures Agreement(OrderRequested(s, r).value) <==> Unclaimed(s, r)
  {
    hide Agreement;
    var s' := OrderRequested(s, r).value;
    if Unclaimed(s, r) {
      OrderRequestedAgrees(s, r);
    }
    if Agreement(s') {
      SetOrder(s, r.user, r.currencyFrom, X.NewOrder(r));
      assert OrderAt(s', r.user, r.currencyFrom, r.id);
      OpenOrderIsUnclaimed(s', r.user, r.currencyFrom, r.id);
    }
  }

  // ---------- Deciding an order ----------

  /** The order a decision is about, once decided. */
  ghost function Decided(s: State, d: X.ExchangeDecision): X.ExchangeOrder
    requires OrderDecided(s, d).Ok?
  {
    X.DecideOrder(OrderOf(s, d.user, d.currencyFrom, d.id), d).value.0
  }

  /** A decision settles one undecided order and, on completion, books it in the wallet. */
  lemma FirstHalfEffect(s: State, d: X.ExchangeDecision)
    requires StateOk(s) && OrderDecided(s, d).Ok?
    ensures var (s', completed) := OrderDecided(s, d).value;
      var o, o' := OrderOf(s, d.user, d.currencyFrom, d.id), Decided(s, d);
      && o.status.InProgress? && IsHere(o, d.user, d.currencyFrom, d.id)
      && o'.ToUpd() == o.ToUpd() && o'.status == (if completed then X.Completed else X.Rejected)
      && (completed <==> d.decision.Confirm?)
      && s'.exchangeState == (if completed then X.Booked(s.exchangeState, o.ToUpd()) else s.exchangeState)
      && OrderChanged(s, s', o') && SameIncoming(s, s')
  {
    var o := OrderOf(s, d.user, d.currencyFrom, d.id);
    assert UserOk(d.user, s.users[d.user]);
    assert AccountOk(d.user, d.currencyFrom, Account(s, d.user, d.currencyFrom));
    assert StoredOrderOk(d.user, d.currencyFrom, d.id, o);
    X.FirstDecisionSettles(o, d);
    var o' := Decided(s, d);
    assert o'.ToUpd() == o.ToUpd();
    SetOrder(s, d.user, d.currencyFrom, o');
    SetOrderKeepsIncoming(s, d.user, d.currencyFrom, o');
    var info := Account(s, d.user, d.currencyFrom);
    var middle := SetAccount(s, d.user, d.currencyFrom, info.(exchangeRequests := info.exchangeRequests[o'.id := o']));
    WalletAside(s, middle, OrderDecided(s, d).value.0, o');
  }

  /** Orders and incoming amounts live in the users only. */
  lemma WalletAside(s: State, middle: State, s': State, order: X.ExchangeOrder)
    requires OrderChanged(s, middle, order) && SameIncoming(s, middle) && s'.users == middle.users
    ensures OrderChanged(s, s', order) && SameIncoming(s, s')
  {}

  /** An undecided order is nowhere else yet. */
  lemma UndecidedIsUnrecorded(s: State, u: UserId, c: Currency, id: Uuid)
    requires Agreement(s) && OrderAt(s, u, c, id) && !OrderOf(s, u, c, id).status.Completed?
    ensures id !in s.exchangeState.exchanges
    ensures forall v, d :: !IncomingAt(s, v, d, id)
  {}

  /** What a decision decides is the one order of its id, unrecorded so far. */
  lemma DecidedIsUnrecorded(s: State, d: X.ExchangeDecision)
    requires StateOk(s) && Agreement(s) && OrderDecided(s, d).Ok?
    ensures var o, order := OrderOf(s, d.user, d.currencyFrom, d.id), Decided(s, d);
      && order.amountTo == o.amountTo && order.currencyTo == o.currencyTo && IsHere(order, d.user, d.currencyFrom, d.id)
      && order.id !in s.exchangeState.exchanges
      && (forall u, c :: OrderAt(s, u, c, order.id) ==> IsHere(order, u, c, order.id))
      && (forall u, c :: !IncomingAt(s, u, c, order.id))
  {
    FirstHalfEffect(s, d);
    assert OrderAt(s, d.user, d.currencyFrom, d.id);
    assert Decided(s, d).ToUpd() == OrderOf(s, d.user, d.currencyFrom, d.id).ToUpd();
    UndecidedIsUnrecorded(s, d.user, d.currencyFrom, d.id);
  }

  lemma OrderSettledAgrees(s: State, d: X.ExchangeDecision)
    requires StateOk(s) && Agreement(s) && OrderSettled(s, d).Ok?
    requires d.decision.Confirm? ==> RepeatsOrder(s, d)
    ensures Agreement(OrderSettled(s, d).value)
  {
    FirstHalfEffect(s, d);
    DecidedIsUnrecorded(s, d);
    var middle, order := OrderDecided(s, d).value.0, Decided(s, d);
    if d.decision.Confirm? {
      SetIncoming(middle, d.user, d.currencyTo, d.id, d.amountTo);
      ThroughMiddle(s, middle, OrderSettled(s, d).value, order);
      CompletedOrderAgrees(s, OrderSettled(s, d).value, order);
    } else {
      UncompletedOrderAgrees(s, middle, order);
    }
  }

  /** In agreement, a completed order's incoming amount is in the currency and of the size it says. */
  lemma AgreedAmount(s: State, u: UserId, c: Currency, d: Currency, id: Uuid)
    requires Agreement(s) && OrderAt(s, u, c, id) && OrderOf(s, u, c, id).status.Completed? && IncomingAt(s, u, d, id)
    ensures d == OrderOf(s, u, c, id).currencyTo && AmountAt(s, u, d, id) == OrderOf(s, u, c, id).amountTo
  {}

  /** A confirmation keeps the three copies in agreement exactly when it repeats what the order says it buys. */
  lemma ConfirmationAgreesIff(s: State, d: X.ExchangeDecision)
    requires StateOk(s) && Agreement(s) && OrderSettled(s, d).Ok? && d.decision.Confirm?
    ensures Agreement(OrderSettled(s, d).value) <==> RepeatsOrder(s, d)
  {
    if RepeatsOrder(s, d) {
      OrderSettledAgrees(s, d);
    } else {
      FirstHalfEffect(s, d);
      var middle, s' := OrderDecided(s, d).value.0, OrderSettled(s, d).value;
      SetIncoming(middle, d.user, d.currencyTo, d.id, d.amountTo);
      assert Decided(s, d).ToUpd() == OrderOf(s, d.user, d.currencyFrom, d.id).ToUpd();
      assert OrderAt(s', d.user, d.currencyFrom, d.id) && IncomingAt(s', d.user, d.currencyTo, d.id);
      if Agreement(s') {
        AgreedAmount(s', d.user, d.currencyFrom, d.currencyTo, d.id);
      }
    }
  }

  // ---------- Dropping a token ----------

  lemma AccountDropped(s: State, t: TokenUpdate)
    requires t.action.Disable? && TokensUpdated(s, t).Ok?
    ensures var s' := TokensUpdated(s, t).value;
      && Has(s, t.user, ERC20(t.token))
      && s'.exchangeState == s.exchangeState
      && (forall u, c :: Has(s', u, c) <==> Has(s, u, c) && !(u == t.user && c == ERC20(t.token)))
      && (forall u, c :: Has(s', u, c) ==> Account(s', u, c) == Account(s, u, c))
  {}

  lemma DisableAgrees(s: State, t: TokenUpdate, s': State)
    requires Agreement(s) && t.action.Disable? && TokensUpdated(s, t) == Ok(s')
    requires Has(s, t.user, ERC20(t.token)) && Unexchanged(Account(s, t.user, ERC20(t.token)))
    ensures Agreement(s')
  {
    AccountDropped(s, t);
    assert forall u, c, id :: OrderAt(s', u, c, id) ==>
      OrderAt(s, u, c, id) && OrderOf(s', u, c, id) == OrderOf(s, u, c, id);
    assert forall u, c, id :: IncomingAt(s', u, c, id) <==> IncomingAt(s, u, c, id);
    forall u, c, id | OrderAt(s', u, c, id) && OrderOf(s', u, c, id).status.Completed?
      ensures Honoured(s', u, id, OrderOf(s', u, c, id))
    {
      assert Honoured(s, u, id, OrderOf(s, u, c, id));
    }
    forall id | id in s'.exchangeState.exchanges ensures Backed(s', id, s'.exchangeState.exchanges[id]) {
      assert Backed(s, id, s.exchangeState.exchanges[id]);
    }
    forall u, c, id | IncomingAt(s', u, c, id) ensures Accounted(s', u, c, id) {
      assert Accounted(s, u, c, id);
    }
  }

  /** Every wallet record has its order and its incoming amount. */
  lemma RecordIsBacked(s: State, id: Uuid)
    requires Agreement(s) && id in s.exchangeState.exchanges
    ensures var r := s.exchangeState.exchanges[id];
      OrderAt(s, r.user, r.currencyFrom, id) && IncomingAt(s, r.user, r.currencyTo, id)
  {}

  /** Disabling a token keeps the agreement exactly when the account took no part in a completed exchange. */
  lemma DisableAgreesIff(s: State, t: TokenUpdate)
    requires StateOk(s) && Agreement(s) && t.action.Disable? && TokensUpdated(s, t).Ok?
    ensures Agreement(TokensUpdated(s, t).value) <==> Unexchanged(Account(s, t.user, ERC20(t.token)))
  {
    AccountDropped(s, t);
    var s', c := TokensUpdated(s, t).value, ERC20(t.token);
    var info := Account(s, t.user, c);
    if Unexchanged(info) {
      DisableAgrees(s, t, s');
    } else {
      var id := SharedRecord(s, t.user, c);
      if Agreement(s') {
        RecordIsBacked(s', id);
      }
    }
  }

  /** An account that took part in a completed exchange is named by one of the wallet's records. */
  lemma SharedRecord(s: State, u: UserId, c: Currency) returns (id: Uuid)
    requires StateOk(s) && Agreement(s) && Has(s, u, c) && !Unexchanged(Account(s, u, c))
    ensures id in s.exchangeState.exchanges
    ensures var r := s.exchangeState.exchanges[id]; r.user == u && (r.currencyFrom == c || r.currencyTo == c)
  {
    var info := Account(s, u, c);
    assert UserOk(u, s.users[u]);
    if completed :| completed in info.exchangeRequests && info.exchangeRequests[completed].status.Completed? {
      id := completed;
      assert StoredOrderOk(u, c, id, info.exchangeRequests[id]);
      assert OrderAt(s, u, c, id);
      assert Honoured(s, u, id, OrderOf(s, u, c, id));
    } else {
      id :| id in info.incomingExchangeRequests;
      assert IncomingAt(s, u, c, id);
      assert Accounted(s, u, c, id);
    }
  }

  // ---------- Every step, every run ----------

  /** A decision keeps the agreement exactly when it rejects, or repeats what the order says it buys. */
  lemma DecisionAgreesIff(s: State, d: X.ExchangeDecision)
    requires StateOk(s) && Agreement(s) && OrderSettled(s, d).Ok?
    ensures Agreement(OrderSettled(s, d).value) <==> (d.decision.Confirm? ==> RepeatsOrder(s, d))
  {
    hide Agreement, StateOk, OrderSettled;
    if d.decision.Confirm? {
      ConfirmationAgreesIff(s, d);
    } else {
      OrderSettledAgrees(s, d);
    }
  }

  /** The three kinds of update that touch the books other than by a snapshot. */
  lemma RelevantStepAgreesIff(s: State, upd: StateUpdate, nd: Nondet, after: State)
    requires StateOk(s) && Agreement(s)
    requires Handle(s, upd.created, upd.body, nd).Ok? && Handle(s, upd.created, upd.body, nd).value.state == after
    requires ExchangeRelevant(upd.body) && !upd.body.Snapshot?
    ensures Agreement(after) <==> Careful(s, upd.body)
  {
    hide StateOk, Agreement, TokensUpdated, OrderSettled, OrderRequested, RepeatsOrder, Unclaimed, Unexchanged;
    if upd.body.ExchangeRequest? {
      RequestAgreesIff(s, upd.body.order);
    } else if upd.body.ExchangeDecision? {
      DecisionAgreesIff(s, upd.body.decision);
    } else {
      AccountDropped(s, upd.body.tokens);
      DisableAgreesIff(s, upd.body.tokens);
    }
  }

  lemma HandleAgreesIff(s: State, upd: StateUpdate, nd: Nondet, after: State)
    requires StateOk(s) && Agreement(s)
    requires Handle(s, upd.created, upd.body, nd).Ok? && Handle(s, upd.created, upd.body, nd).value.state == after
    ensures Agreement(after) <==> Careful(s, upd.body)
  {
    hide Agreement, SameExchanges, StateOk;
    if !ExchangeRelevant(upd.body) {
      QuietStepKeepsExchanges(s, upd, nd);
      SameExchangesAgree(s, after);
    } else if !upd.body.Snapshot? {
      RelevantStepAgreesIff(s, upd, nd, after);
    }
  }

  /** The time stamp is no part of the books. */
  lemma StampAgrees(s: State, t: Time)
    ensures Agreement(s.(lastChanged := t)) <==> Agreement(s)
  {
    hide Agreement;
    SameUsersKeepExchanges(s, s.(lastChanged := t));
    SameUsersKeepExchanges(s.(lastChanged := t), s);
    if Agreement(s) {
      SameExchangesAgree(s, s.(lastChanged := t));
    }
    if Agreement(s.(lastChanged := t)) {
      SameExchangesAgree(s.(lastChanged := t), s);
    }
  }

  /** An accepted update keeps the three copies in agreement exactly when it is careful. */
  lemma StepAgreesIff(s: State, upd: StateUpdate, nd: Nondet)
    requires StateOk(s) && Agreement(s) && Apply(s, upd, nd).Ok?
    ensures Agreement(Apply(s, upd, nd).value.state) <==> Careful(s, upd.body)
  {
    hide Agreement, StateOk, Careful;
    ApplyStamps(s, upd, nd);
    var after := Handle(s, upd.created, upd.body, nd).value.state;
    HandleAgreesIff(s, upd, nd, after);
    StampAgrees(after, upd.created);
  }

  /** Every accepted careful update keeps the three copies in agreement. */
  lemma StepKeepsAgreement(s: State, upd: StateUpdate, nd: Nondet)
    requires StateOk(s) && Agreement(s) && Careful(s, upd.body) && Apply(s, upd, nd).Ok?
    ensures Agreement(Apply(s, upd, nd).value.state)
  {
    hide Agreement, StateOk, Careful;
    StepAgreesIff(s, upd, nd);
  }

  /** Every update a run accepts is careful in the state it meets; refused updates may be anything. */
  ghost predicate CarefulRun(s: State, steps: seq<Step>) {
    forall i :: 0 <= i < |steps| ==> CarefulStep(Run(s, steps[..i]), steps[i])
  }

  ghost predicate CarefulStep(s: State, step: Step) {
    Apply(s, step.update, step.nd).Ok? ==> Careful(s, step.update.body)
  }

  lemma CarefulRunAppend(s: State, steps: seq<Step>)
    requires steps != []
    ensures var init, last := steps[..|steps| - 1], steps[|steps| - 1];
      CarefulRun(s, steps) <==> CarefulRun(s, init) && CarefulStep(Run(s, init), last)
  {
    hide Run, CarefulStep;
    var init := steps[..|steps| - 1];
    forall i | 0 <= i < |init| ensures steps[..i] == init[..i] && steps[i] == init[i] {
    }
    if CarefulRun(s, steps) {
      forall i | 0 <= i < |init| ensures CarefulStep(Run(s, init[..i]), init[i]) {
        assert CarefulStep(Run(s, steps[..i]), steps[i]);
      }
    }
  }

  /** The three copies agree in every state of the run. */
  ghost predicate AgreesThroughout(s: State, steps: seq<Step>) {
    forall i :: 0 <= i <= |steps| ==> Agreement(Run(s, steps[..i]))
  }

  lemma AgreesThroughoutAppend(s: State, steps: seq<Step>)
    requires steps != []
    ensures AgreesThroughout(s, steps)
      <==> AgreesThroughout(s, steps[..|steps| - 1]) && Agreement(Run(s, steps))
  {
    hide Run, Agreement;
    var init := steps[..|steps| - 1];
    forall i | 0 <= i <= |init| ensures steps[..i] == init[..i] {
    }
    assert steps[..|steps|] == steps;
    if AgreesThroughout(s, steps) {
      forall i | 0 <= i <= |init| ensures Agreement(Run(s, init[..i])) {
        assert Agreement(Run(s, steps[..i]));
      }
    }
  }

  lemma AdvanceAgreesIff(s: State, step: Step)
    requires StateOk(s) && Agreement(s)
    ensures Agreement(Advance(s, step)) <==> CarefulStep(s, step)
  {
    hide Agreement, StateOk, Careful, Apply;
    if Apply(s, step.update, step.nd).Ok? {
      StepAgreesIff(s, step.update, step.nd);
    }
  }

  /**
   The three copies agree in every state a run commits exactly when every update it accepts
   is careful. Snapshots satisfy the invariant of the accounts; refused updates may be anything.
   */
  lemma {:induction false} AgreesThroughoutIff(s: State, steps: seq<Step>)
    requires StateOk(s) && Agreement(s) && SnapshotsOk(steps)
    ensures AgreesThroughout(s, steps) <==> CarefulRun(s, steps)
    ensures StateOk(Run(s, steps))
    decreases |steps|
  {
    hide Agreement, StateOk, Advance, CarefulStep, SnapshotOk;
    RunKeepsOk(s, steps);
    if steps == [] {
      assert steps[..0] == [];
    } else {
      var init := steps[..|steps| - 1];
      AgreesThroughoutIff(s, init);
      AgreesThroughoutAppend(s, steps);
      CarefulRunAppend(s, steps);
      if AgreesThroughout(s, init) {
        assert init[..|init|] == init;
        AdvanceAgreesIff(Run(s, init), steps[|steps| - 1]);
      }
    }
  }

  /** In every state a careful run commits, the three copies agree. */
  lemma RunKeepsAgreement(s: State, steps: seq<Step>)
    requires StateOk(s) && Agreement(s) && SnapshotsOk(steps) && CarefulRun(s, steps)
    ensures StateOk(Run(s, steps)) && Agreement(Run(s, steps))
  {
    hide Agreement, StateOk, CarefulRun, SnapshotsOk, Run;
    AgreesThroughoutIff(s, steps);
    assert steps[..|steps|] == steps;
  }

  /**
   Why the worker applies updates to a copy: a confirmation whose second half fails leaves
   the first half behind, with the order completed and booked but nothing brought in.
   */
  lemma HalfAppliedDisagrees(s: State, d: X.ExchangeDecision)
    requires StateOk(s) && Agreement(s) && d.decision.Confirm?
    requires OrderDecided(s, d).Ok? && OrderSettled(s, d).Err?
    ensures !Agreement(OrderDecided(s, d).value.0)
  {
    FirstHalfEffect(s, d);
    UndecidedIsUnrecorded(s, d.user, d.currencyFrom, d.id);
    var half, order := OrderDecided(s, d).value.0, Decided(s, d);
    assert order.ToUpd() == OrderOf(s, d.user, d.currencyFrom, d.id).ToUpd();
    assert OrderAt(half, d.user, d.currencyFrom, d.id) && OrderOf(half, d.user, d.currencyFrom, d.id).status.Completed?;
    assert !IncomingAt(half, d.user, order.currencyTo, d.id);
    assert !Honoured(half, d.user, d.id, OrderOf(half, d.user, d.currencyFrom, d.id));
  }
}
