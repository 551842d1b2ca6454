/**
 What an update may touch and what it leaves alone, for all kinds at once: which accounts
 open, close or change, in which of their parts, and who comes in on which invite.
 */
module Frames {
  import opened Domain
  import opened Accounts
  import opened Updates
  import opened StateMachine
  import opened Requests
  import T = Transactions
  import W = Withdrawals
  import L = Limits
  import X = Exchanges

  // ---------- One account, one step ----------

  /** The updates that can change an account that is there before and after. */
  predicate MayTouch(body: UpdateBody, u: UserId, c: Currency) {
    match body
    case CreateWithdrawalRequest(w) => u == w.user && c == w.address.Currency()
    case WithdrawalRequestDecision(d) => u == d.userId && c == d.currency
    case WithdrawalRequestComplete(_) => true
    case WithdrawalRequestNodeRejected(_) => true
    case DepositAddress(v, a) => u == v && c == a.Currency()
    case UpdateBtcTx(_) => c == BTC
    case CancelBtcTx(_) => true
    case LimitChangeDecision(d) => u == d.user && c == d.currency
    case ClearLimits(_) => true
    case ExchangeRequest(r) => u == r.user && c == r.currencyFrom
    case ExchangeDecision(d) => u == d.user && (c == d.currencyFrom || c == d.currencyTo)
    case _ => false
  }

  predicate ChangesRequests(body: UpdateBody) {
    || body.CreateWithdrawalRequest? || body.WithdrawalRequestDecision? || body.WithdrawalRequestComplete?
    || body.WithdrawalRequestNodeRejected? || body.CancelBtcTx?
  }

  /** An operator's confirmation that names this limit. */
  predicate NamesLimit(body: UpdateBody, limit: L.Limit) {
    body.LimitChangeDecision? && body.limitVote.decisionType.Confirm? && body.limitVote.requestedLimit == limit
  }

  /** Which parts of it: addresses are only ever added, and what was spent under the limit never grows. */
  ghost predicate AccountMoves(body: UpdateBody, before: UserCurrencyInfo, after: UserCurrencyInfo) {
    && after.currency == before.currency
    && before.depositInfo <= after.depositInfo
    && (after.depositInfo == before.depositInfo || body.DepositAddress?)
    && (after.transactions == before.transactions || body.UpdateBtcTx? || body.CancelBtcTx?)
    && (after.limitInfo == before.limitInfo || body.LimitChangeDecision? || body.ClearLimits?)
    && (after.limitInfo.spent == before.limitInfo.spent || after.limitInfo.spent == 0)
    && (after.limitInfo.limit == before.limitInfo.limit || NamesLimit(body, after.limitInfo.limit))
    && (after.withdrawalRequests == before.withdrawalRequests || ChangesRequests(body))
    && (after.exchangeRequests == before.exchangeRequests || body.ExchangeRequest? || body.ExchangeDecision?)
    && (after.incomingExchangeRequests == before.incomingExchangeRequests || body.ExchangeDecision?)
  }

  /** A new user starts with the default accounts; a token's account opens and closes with the token. */
  predicate Opens(body: UpdateBody, u: UserId, c: Currency) {
    || (body.Signup? && u == body.signup.username && c in DEFAULT_CURRENCIES)
    || (body.UpdateTokens? && body.tokens.action.Enable? && u == body.tokens.user && c == ERC20(body.tokens.token))
  }

  predicate Closes(body: UpdateBody, u: UserId, c: Currency) {
    body.UpdateTokens? && body.tokens.action.Disable? && u == body.tokens.user && c == ERC20(body.tokens.token)
  }

  ghost predicate Frame(s: State, s': State, body: UpdateBody) {
    && (forall u, c :: Has(s, u, c) && Has(s', u, c) ==>
          && AccountMoves(body, Account(s, u, c), Account(s', u, c))
          && (MayTouch(body, u, c) || Account(s', u, c) == Account(s, u, c)))
    && (forall u, c :: Has(s', u, c) && !Has(s, u, c) ==> Account(s', u, c) == NewAccount(c) && Opens(body, u, c))
    && (forall u, c :: Has(s, u, c) && !Has(s', u, c) ==> Closes(body, u, c))
  }

  // ---------- Building blocks ----------

  lemma SameUsersFrame(s: State, s': State, body: UpdateBody)
    requires s'.users == s.users
    ensures Frame(s, s', body)
  {}

  lemma SetAccountFrame(s: State, u: UserId, c: Currency, info: UserCurrencyInfo, body: UpdateBody)
    requires Has(s, u, c) && MayTouch(body, u, c) && AccountMoves(body, Account(s, u, c), info)
    ensures Frame(s, SetAccount(s, u, c, info), body)
  {
    hide AccountMoves;
    var s' := SetAccount(s, u, c, info);
    forall v, d | Has(s, v, d) && Has(s', v, d) ensures AccountMoves(body, Account(s, v, d), Account(s', v, d)) {
      AccountMovesRefl(body, Account(s, v, d));
    }
  }

  lemma AccountMovesRefl(body: UpdateBody, info: UserCurrencyInfo)
    ensures AccountMoves(body, info, info)
  {}

  /** A user edited outside the accounts. */
  lemma SetUserFrame(s: State, u: UserId, user: UserInfo, body: UpdateBody)
    requires u in s.users && user.currencies == s.users[u].currencies
    ensures Frame(s, SetUser(s, u, user), body)
  {
    hide AccountMoves, MayTouch;
    var s' := SetUser(s, u, user);
    forall v, d | Has(s, v, d) && Has(s', v, d) ensures AccountMoves(body, Account(s, v, d), Account(s', v, d)) {
      AccountMovesRefl(body, Account(s, v, d));
    }
  }

  lemma EveryAccountFrame(s: State, f: UserCurrencyInfo -> UserCurrencyInfo, body: UpdateBody)
    requires forall info :: AccountMoves(body, info, f(info))
    requires forall u, c :: MayTouch(body, u, c)
    ensures Frame(s, EveryAccount(s, f), body)
  {
    hide AccountMoves, MayTouch;
  }

  /** Two steps of one update that opens and closes nothing. */
  lemma FrameTrans(s: State, middle: State, s': State, body: UpdateBody)
    requires Frame(s, middle, body) && Frame(middle, s', body)
    requires forall u, c :: !Opens(body, u, c) && !Closes(body, u, c)
    ensures Frame(s, s', body)
  {
    forall u, c | Has(s, u, c) && Has(s', u, c)
      ensures AccountMoves(body, Account(s, u, c), Account(s', u, c))
      ensures MayTouch(body, u, c) || Account(s', u, c) == Account(s, u, c)
    {
      assert Has(middle, u, c);
      AccountMovesTrans(body, Account(s, u, c), Account(middle, u, c), Account(s', u, c));
    }
  }

  lemma AccountMovesTrans(body: UpdateBody, a: UserCurrencyInfo, b: UserCurrencyInfo, c: UserCurrencyInfo)
    requires AccountMoves(body, a, b) && AccountMoves(body, b, c)
    ensures AccountMoves(body, a, c)
  {}

  // ---------- The handlers ----------

  lemma SignedUpFrame(s: State, created: Time, i: SignupInfo)
    requires SignedUp(s, created, i).Ok?
    ensures Frame(s, SignedUp(s, created, i).value, Signup(i))
  {}

  lemma DepositAddressFrame(s: State, u: UserId, a: CurrencyAddress)
    requires DepositAddressAdded(s, u, a).Ok?
    ensures Frame(s, DepositAddressAdded(s, u, a).value, DepositAddress(u, a))
  {
    var info := Account(s, u, a.Currency());
    SetAccountFrame(s, u, a.Currency(), info.(depositInfo := info.depositInfo + [a]), DepositAddress(u, a));
  }

  lemma TokensFrame(s: State, t: TokenUpdate)
    requires TokensUpdated(s, t).Ok?
    ensures Frame(s, TokensUpdated(s, t).value, UpdateTokens(t))
  {
    hide AccountMoves, Balance;
    var s', body := TokensUpdated(s, t).value, UpdateTokens(t);
    forall u, c | Has(s, u, c) && Has(s', u, c)
      ensures Account(s', u, c) == Account(s, u, c) && AccountMoves(body, Account(s, u, c), Account(s', u, c))
    {
      AccountMovesRefl(body, Account(s, u, c));
    }
  }

  lemma LimitsFrame(s: State, body: UpdateBody, nd: Nondet)
    requires AboutLimits(body) && LimitsHandled(s, body, nd).Ok?
    ensures Frame(s, LimitsHandled(s, body, nd).value, body)
  {
    hide Frame;
    var s' := LimitsHandled(s, body, nd).value;
    match body {
      case LimitsChangeRequest(r) => SetUserFrame(s, r.user, s'.users[r.user], body);
      case CancelLimitChange(r) => SetUserFrame(s, r.user, s'.users[r.user], body);
      case LimitChangeDecision(d) => LimitVotedFrame(s, d);
    }
  }

  lemma LimitVotedFrame(s: State, d: L.LimitChangeDecision)
    requires LimitVoted(s, d).Ok?
    ensures Frame(s, LimitVoted(s, d).value, LimitChangeDecision(d))
  {
    var s' := LimitVoted(s, d).value;
    forall u, c | Has(s, u, c) && Has(s', u, c) && !(u == d.user && c == d.currency)
      ensures Account(s', u, c) == Account(s, u, c)
    {
    }
  }

  lemma UserStepFrame(s: State, upd: StateUpdate, nd: Nondet)
    requires AboutUsers(upd.body) && HandleUser(s, upd.created, upd.body, nd).Ok?
    ensures Frame(s, HandleUser(s, upd.created, upd.body, nd).value, upd.body)
  {
    hide Frame, SignedUp, DepositAddressAdded, TokensUpdated, LimitsHandled;
    var s', body := HandleUser(s, upd.created, upd.body, nd).value, upd.body;
    if IsSettings(body) {
      SetUserFrame(s, SettingsUser(body), s'.users[SettingsUser(body)], body);
    } else if AboutLimits(body) {
      LimitsFrame(s, body, nd);
    } else {
      match body {
        case Signup(i) => SignedUpFrame(s, upd.created, i);
        case DepositAddress(u, a) => DepositAddressFrame(s, u, a);
        case UpdateTokens(t) => TokensFrame(s, t);
        case GenInvite(_) => SameUsersFrame(s, s', body);
      }
    }
  }

  lemma StatusSetFrame(s: State, id: Uuid, status: W.WithdrawalRequestStatus, body: UpdateBody)
    requires body.WithdrawalRequestComplete? || body.WithdrawalRequestNodeRejected? || body.CancelBtcTx?
    ensures Frame(s, StatusSet(s, id, status), body)
  {
    EveryAccountFrame(s, StatusSetter(id, status), body);
  }

  lemma SetTransactionsFrame(s: State, u: UserId, txs: seq<T.Transaction>, body: UpdateBody)
    requires Has(s, u, BTC) && (body.UpdateBtcTx? || body.CancelBtcTx?)
    ensures Frame(s, SetAccount(s, u, BTC, Account(s, u, BTC).(transactions := txs)), body)
  {
    SetAccountFrame(s, u, BTC, Account(s, u, BTC).(transactions := txs), body);
  }

  lemma BtcTxUpdatedFrame(s: State, tx: T.BtcTransaction, nd: Nondet)
    ensures Frame(s, BtcTxUpdated(s, tx, nd), UpdateBtcTx(tx))
  {
    hide Frame, T.Upsert;
    var owner, body := FindUserAddress(s, BtcAddress(tx.address), nd), UpdateBtcTx(tx);
    if IsExchangeAddress(s, BtcAddress(tx.address)) || owner.None? {
      SameUsersFrame(s, BtcTxUpdated(s, tx, nd), body);
    } else {
      SetTransactionsFrame(s, owner.value, T.Upsert(Account(s, owner.value, BTC).transactions, tx), body);
    }
  }

  lemma DepositDroppedFrame(s: State, cancel: T.TxCancel, nd: Nondet)
    ensures Frame(s, DepositDropped(s, cancel, nd), CancelBtcTx(cancel))
  {
    hide Frame, T.Remove;
    var owner, body := FindUserAddress(s, BtcAddress(cancel.address), nd), CancelBtcTx(cancel);
    if owner.None? {
      SameUsersFrame(s, s, body);
    } else {
      SetTransactionsFrame(s, owner.value, T.Remove(Account(s, owner.value, BTC).transactions, cancel.Key()), body);
    }
  }

  lemma RevertedFrame(s: State, cancel: T.TxCancel, nd: Nondet)
    ensures Frame(s, WithdrawalReverted(s, cancel, nd), CancelBtcTx(cancel))
  {
    hide Frame, StatusSet;
    var id := FindWithdrawal(s, BtcTxId(cancel.txid), nd);
    if id.Some? {
      StatusSetFrame(s, id.value, W.NodeRejected("Tx canceled"), CancelBtcTx(cancel));
    } else {
      SameUsersFrame(s, s, CancelBtcTx(cancel));
    }
  }

  lemma BtcTxCancelledFrame(s: State, cancel: T.TxCancel, nd: Nondet)
    ensures Frame(s, BtcTxCancelled(s, cancel, nd), CancelBtcTx(cancel))
  {
    hide Frame, DepositDropped, WithdrawalReverted;
    var body := CancelBtcTx(cancel);
    if IsExchangeAddress(s, BtcAddress(cancel.address)) {
      SameUsersFrame(s, BtcTxCancelled(s, cancel, nd), body);
    } else {
      var middle := DepositDropped(s, cancel, nd);
      DepositDroppedFrame(s, cancel, nd);
      RevertedFrame(middle, cancel, nd);
      FrameTrans(s, middle, WithdrawalReverted(middle, cancel, nd), body);
    }
  }

  lemma WithdrawalCreatedFrame(s: State, created: Time, w: W.WithdrawalRequestInfo)
    requires WithdrawalCreated(s, created, w).Ok?
    ensures Frame(s, WithdrawalCreated(s, created, w).value.state, CreateWithdrawalRequest(w))
  {
    var c := w.address.Currency();
    var s' := WithdrawalCreated(s, created, w).value.state;
    SetAccountFrame(s, w.user, c, Account(s', w.user, c), CreateWithdrawalRequest(w));
  }

  lemma WithdrawalVotedFrame(s: State, d: W.WithdrawalRequestDecisionInfo)
    requires WithdrawalVoted(s, d).Ok?
    ensures Frame(s, WithdrawalVoted(s, d).value.state, WithdrawalRequestDecision(d))
  {
    hide W.Vote;
    var s' := WithdrawalVoted(s, d).value.state;
    SetAccountFrame(s, d.userId, d.currency, Account(s', d.userId, d.currency), WithdrawalRequestDecision(d));
  }

  lemma OrderRequestedFrame(s: State, r: X.ExchangeOrderUpd)
    requires OrderRequested(s, r).Ok?
    ensures Frame(s, OrderRequested(s, r).value, ExchangeRequest(r))
  {
    var s' := OrderRequested(s, r).value;
    SetAccountFrame(s, r.user, r.currencyFrom, Account(s', r.user, r.currencyFrom), ExchangeRequest(r));
  }

  lemma OrderDecidedFrame(s: State, d: X.ExchangeDecision)
    requires OrderDecided(s, d).Ok?
    ensures Frame(s, OrderDecided(s, d).value.0, ExchangeDecision(d))
  {
    hide Frame, X.DecideOrder, X.Booked;
    var info, s' := Account(s, d.user, d.currencyFrom), OrderDecided(s, d).value.0;
    var info' := Account(s', d.user, d.currencyFrom);
    SetAccountFrame(s, d.user, d.currencyFrom, info', ExchangeDecision(d));
    SameAccountsFrame(s, SetAccount(s, d.user, d.currencyFrom, info'), s', ExchangeDecision(d));
  }

  /** Accounts live in the users only. */
  lemma SameAccountsFrame(s: State, after: State, s': State, body: UpdateBody)
    requires Frame(s, after, body) && s'.users == after.users
    ensures Frame(s, s', body)
  {}

  lemma OrderSettledFrame(s: State, d: X.ExchangeDecision)
    requires OrderSettled(s, d).Ok?
    ensures Frame(s, OrderSettled(s, d).value, ExchangeDecision(d))
  {
    hide Frame, OrderDecided;
    var half, s' := OrderDecided(s, d).value, OrderSettled(s, d).value;
    OrderDecidedFrame(s, d);
    if half.1 {
      SetAccountFrame(half.0, d.user, d.currencyTo, Account(s', d.user, d.currencyTo), ExchangeDecision(d));
      FrameTrans(s, half.0, s', ExchangeDecision(d));
    }
  }

  lemma OtherStepFrame(s: State, upd: StateUpdate, nd: Nondet)
    requires !AboutUsers(upd.body) && SnapshotIsCurrent(s, upd.body) && HandleOther(s, upd.created, upd.body, nd).Ok?
    ensures Frame(s, HandleOther(s, upd.created, upd.body, nd).value.state, upd.body)
  {
    hide Frame, BtcTxUpdated, BtcTxCancelled, OrderRequested, OrderSettled, StatusSet, EveryAccount;
    hide WithdrawalCreated, WithdrawalVoted;
    var s', body := HandleOther(s, upd.created, upd.body, nd).value.state, upd.body;
    match body {
      case Snapshot(_) => SameUsersFrame(s, s', body);
      case CreateWithdrawalRequest(w) => WithdrawalCreatedFrame(s, upd.created, w);
      case WithdrawalRequestDecision(d) => WithdrawalVotedFrame(s, d);
      case WithdrawalRequestComplete(i) => StatusSetFrame(s, i.id, i.Status(), body);
      case WithdrawalRequestNodeRejected(i) => StatusSetFrame(s, i.id, W.NodeRejected(i.reason), body);
      case UpdateBtcTx(tx) => BtcTxUpdatedFrame(s, tx, nd);
      case CancelBtcTx(c) => BtcTxCancelledFrame(s, c, nd);
      case ClearLimits(span) => EveryAccountFrame(s, SpentClearer(span), body);
      case ExchangeRequest(r) => OrderRequestedFrame(s, r);
      case ExchangeDecision(d) => OrderSettledFrame(s, d);
      case BestBtcBlock(_) => SameUsersFrame(s, s', body);
      case ExchangeAddress(_) => SameUsersFrame(s, s', body);
    }
  }

  /** Every accepted update, of every kind, opens, closes and changes only the accounts it may, in the parts it may. */
  lemma StepFrame(s: State, upd: StateUpdate, nd: Nondet)
    requires Apply(s, upd, nd).Ok? && SnapshotIsCurrent(s, upd.body)
    ensures Frame(s, Apply(s, upd, nd).value.state, upd.body)
  {
    hide Frame;
    ApplyStamps(s, upd, nd);
    var after := Handle(s, upd.created, upd.body, nd).value.state;
    if AboutUsers(upd.body) {
      UserStepFrame(s, upd, nd);
    } else {
      OtherStepFrame(s, upd, nd);
    }
    SameAccountsFrame(s, after, Apply(s, upd, nd).value.state, upd.body);
  }
}
