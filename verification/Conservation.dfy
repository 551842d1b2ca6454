/**
 The exchange wallet's cached balances against its books, and the conservation of every
 currency across users, orders in escrow and the exchange wallet.
 */
module Conservation {
  import opened Domain
  import opened Collections
  import opened Accounts
  import opened Updates
  import opened StateMachine
  import opened Invariants
  import opened Runs
  import opened ExchangeAgreement
  import T = Transactions
  import X = Exchanges

  // ---------- Flows through one account ----------

  function CompletedOf(): X.ExchangeOrder -> int {
    (o: X.ExchangeOrder) => if o.status.Completed? then o.amountFrom else 0
  }

  function EscrowOf(): X.ExchangeOrder -> int {
    (o: X.ExchangeOrder) => if o.status.InProgress? then o.amountFrom else 0
  }

  /** What completed exchanges brought to the account, less what they took. */
  ghost function Flow(info: UserCurrencyInfo): int {
    Sum(info.incomingExchangeRequests, IncomingOf()) - Sum(info.exchangeRequests, CompletedOf())
  }

  /** Held by orders still waiting for a decision. */
  ghost function Escrow(info: UserCurrencyInfo): int {
    Sum(info.exchangeRequests, EscrowOf())
  }

  ghost function Withdrawn(info: UserCurrencyInfo): int {
    Sum(info.withdrawalRequests, CostOf())
  }

  /** An account's balance and escrow are its deposits, less withdrawals, plus its exchange flow. */
  lemma AccountBooks(info: UserCurrencyInfo)
    ensures Net(info) + Escrow(info) == T.CountedSum(info.transactions) - Withdrawn(info) + Flow(info)
  {
    SumSplit(info.exchangeRequests, OutgoingOf(), CompletedOf(), EscrowOf());
  }

  // ---------- Totals over all users ----------

  ghost function Of(user: UserInfo, c: Currency, f: UserCurrencyInfo -> int): int {
    if c in user.currencies then f(user.currencies[c]) else 0
  }

  ghost function UserShare(c: Currency, f: UserCurrencyInfo -> int): UserInfo -> int {
    (user: UserInfo) => Of(user, c, f)
  }

  ghost function NetOf(): UserCurrencyInfo -> int { (info: UserCurrencyInfo) => Net(info) }
  ghost function EscrowedOf(): UserCurrencyInfo -> int { (info: UserCurrencyInfo) => Escrow(info) }
  ghost function FlowOf(): UserCurrencyInfo -> int { (info: UserCurrencyInfo) => Flow(info) }
  ghost function DepositedOf(): UserCurrencyInfo -> int { (info: UserCurrencyInfo) => T.CountedSum(info.transactions) }
  ghost function WithdrawnOf(): UserCurrencyInfo -> int { (info: UserCurrencyInfo) => Withdrawn(info) }

  ghost function Total(s: State, c: Currency, f: UserCurrencyInfo -> int): int {
    Sum(s.users, UserShare(c, f))
  }

  lemma TotalSetUser(s: State, u: UserId, user: UserInfo, c: Currency, f: UserCurrencyInfo -> int)
    ensures Total(SetUser(s, u, user), c, f)
      == Total(s, c, f) - (if Has(s, u, c) then f(Account(s, u, c)) else 0) + Of(user, c, f)
  {
    SumUpdate(s.users, u, user, UserShare(c, f));
  }

  lemma TotalSetAccount(s: State, u: UserId, d: Currency, info: UserCurrencyInfo, c: Currency,
                        f: UserCurrencyInfo -> int)
    requires u in s.users
    ensures Total(SetAccount(s, u, d, info), c, f)
         == Total(s, c, f) + if c == d then f(info) - (if Has(s, u, d) then f(Account(s, u, d)) else 0) else 0
  {
    TotalSetUser(s, u, s.users[u].(currencies := s.users[u].currencies[d := info]), c, f);
  }

  // ---------- The books balance ----------

  /** What the exchange flows gave to the users, the exchange wallet's records gave up. */
  ghost predicate BalancedIn(s: State, c: Currency) {
    Total(s, c, FlowOf()) + Sum(s.exchangeState.exchanges, X.PaidInOf(c))
      == Sum(s.exchangeState.exchanges, X.PaidOutOf(c))
  }

  ghost predicate Balanced(s: State) {
    forall c :: BalancedIn(s, c)
  }

  // ---------- Agreement balances the books ----------

  /** The state without one completed exchange: its record, its order and its incoming amount. */
  ghost function Forgotten(s: State, r: X.ExchangeOrderUpd): State
    requires OrderAt(s, r.user, r.currencyFrom, r.id) && IncomingAt(s, r.user, r.currencyTo, r.id)
  {
    WithoutIncoming(WithoutOrder(WithoutRecord(s, r.id), r), r)
  }

  ghost function WithoutRecord(s: State, id: Uuid): State {
    s.(exchangeState := s.exchangeState.(exchanges := s.exchangeState.exchanges - {id}))
  }

  ghost function WithoutOrder(s: State, r: X.ExchangeOrderUpd): State
    requires Has(s, r.user, r.currencyFrom)
  {
    var info := Account(s, r.user, r.currencyFrom);
    SetAccount(s, r.user, r.currencyFrom, info.(exchangeRequests := info.exchangeRequests - {r.id}))
  }

  ghost function WithoutIncoming(s: State, r: X.ExchangeOrderUpd): State
    requires Has(s, r.user, r.currencyTo)
  {
    var info := Account(s, r.user, r.currencyTo);
    SetAccount(s, r.user, r.currencyTo, info.(incomingExchangeRequests := info.incomingExchangeRequests - {r.id}))
  }

  /** Two states alike but for everything stored under one exchange id. */
  ghost predicate SameButFor(s: State, s': State, id: Uuid) {
    && s'.exchangeState.exchanges == s.exchangeState.exchanges - {id}
    && (forall u, c, i :: OrderAt(s', u, c, i) <==> OrderAt(s, u, c, i) && i != id)
    && (forall u, c, i :: OrderAt(s', u, c, i) ==> OrderOf(s', u, c, i) == OrderOf(s, u, c, i))
    && (forall u, c, i :: IncomingAt(s', u, c, i) <==> IncomingAt(s, u, c, i) && i != id)
    && (forall u, c, i :: IncomingAt(s', u, c, i) ==> AmountAt(s', u, c, i) == AmountAt(s, u, c, i))
  }

  lemma WithoutOrderEffect(s: State, r: X.ExchangeOrderUpd)
    requires OrderAt(s, r.user, r.currencyFrom, r.id)
    requires forall u, c :: OrderAt(s, u, c, r.id) ==> u == r.user && c == r.currencyFrom
    ensures var s' := WithoutOrder(s, r);
      && s'.exchangeState == s.exchangeState && SameIncoming(s, s')
      && (forall u, c, i :: OrderAt(s', u, c, i) <==> OrderAt(s, u, c, i) && i != r.id)
      && (forall u, c, i :: OrderAt(s', u, c, i) ==> OrderOf(s', u, c, i) == OrderOf(s, u, c, i))
  {
    var s' := WithoutOrder(s, r);
    forall u, c, i ensures OrderAt(s', u, c, i) <==> OrderAt(s, u, c, i) && i != r.id {
      assert Has(s', u, c) <==> Has(s, u, c);
      assert OrderAt(s, u, c, r.id) ==> u == r.user && c == r.currencyFrom;
    }
  }

  lemma WithoutIncomingEffect(s: State, r: X.ExchangeOrderUpd)
    requires IncomingAt(s, r.user, r.currencyTo, r.id)
    requires forall u, c :: IncomingAt(s, u, c, r.id) ==> u == r.user && c == r.currencyTo
    ensures var s' := WithoutIncoming(s, r);
      && s'.exchangeState == s.exchangeState && SameOrderBook(s, s')
      && (forall u, c, i :: IncomingAt(s', u, c, i) <==> IncomingAt(s, u, c, i) && i != r.id)
      && (forall u, c, i :: IncomingAt(s', u, c, i) ==> AmountAt(s', u, c, i) == AmountAt(s, u, c, i))
  {
    var s' := WithoutIncoming(s, r);
    forall u, c, i ensures IncomingAt(s', u, c, i) <==> IncomingAt(s, u, c, i) && i != r.id {
      assert Has(s', u, c) <==> Has(s, u, c);
      assert IncomingAt(s, u, c, r.id) ==> u == r.user && c == r.currencyTo;
    }
  }

  lemma WithoutRecordEffect(s: State, id: Uuid)
    ensures SameOrderBook(s, WithoutRecord(s, id)) && SameIncoming(s, WithoutRecord(s, id))
  {}

  /** Nothing else is stored under the id, so forgetting the exchange forgets exactly that id. */
  lemma ForgottenIsSame(s: State, r: X.ExchangeOrderUpd)
    requires OrderAt(s, r.user, r.currencyFrom, r.id) && IncomingAt(s, r.user, r.currencyTo, r.id)
    requires forall u, c :: OrderAt(s, u, c, r.id) ==> u == r.user && c == r.currencyFrom
    requires forall u, c :: IncomingAt(s, u, c, r.id) ==> u == r.user && c == r.currencyTo
    ensures SameButFor(s, Forgotten(s, r), r.id)
  {
    var s1 := WithoutRecord(s, r.id);
    WithoutRecordEffect(s, r.id);
    WithoutOrderEffect(s1, r);
    assert forall u, c :: IncomingAt(WithoutOrder(s1, r), u, c, r.id) ==> u == r.user && c == r.currencyTo;
    WithoutIncomingEffect(WithoutOrder(s1, r), r);
    ThroughThree(s, s1, WithoutOrder(s1, r), Forgotten(s, r), r.id);
  }

  lemma ThroughThree(s: State, s1: State, s2: State, s3: State, id: Uuid)
    requires s1.exchangeState.exchanges == s.exchangeState.exchanges - {id}
      && s2.exchangeState == s1.exchangeState && s3.exchangeState == s2.exchangeState
    requires SameOrderBook(s, s1) && SameIncoming(s, s1) && SameIncoming(s1, s2) && SameOrderBook(s2, s3)
    requires forall u, c, i :: OrderAt(s2, u, c, i) <==> OrderAt(s1, u, c, i) && i != id
    requires forall u, c, i :: OrderAt(s2, u, c, i) ==> OrderOf(s2, u, c, i) == OrderOf(s1, u, c, i)
    requires forall u, c, i :: IncomingAt(s3, u, c, i) <==> IncomingAt(s2, u, c, i) && i != id
    requires forall u, c, i :: IncomingAt(s3, u, c, i) ==> AmountAt(s3, u, c, i) == AmountAt(s2, u, c, i)
    ensures SameButFor(s, s3, id)
  {}

  lemma ForgottenAgrees(s: State, s': State, id: Uuid)
    requires Agreement(s) && SameButFor(s, s', id)
    ensures Agreement(s')
  {
    forall u, c, i | OrderAt(s', u, c, i) && OrderOf(s', u, c, i).status.Completed?
      ensures Honoured(s', u, i, OrderOf(s', u, c, i))
    {
      assert Honoured(s, u, i, OrderOf(s, u, c, i));
    }
    forall i | i in s'.exchangeState.exchanges ensures Backed(s', i, s'.exchangeState.exchanges[i]) {
      assert Backed(s, i, s.exchangeState.exchanges[i]);
    }
    forall u, c, i | IncomingAt(s', u, c, i) ensures Accounted(s', u, c, i) {
      assert Accounted(s, u, c, i);
    }
  }

  lemma WithoutOrderFlow(s: State, r: X.ExchangeOrderUpd, c: Currency)
    requires OrderAt(s, r.user, r.currencyFrom, r.id) && OrderOf(s, r.user, r.currencyFrom, r.id).status.Completed?
    ensures Total(WithoutOrder(s, r), c, FlowOf())
      == Total(s, c, FlowOf()) + if c == r.currencyFrom then OrderOf(s, r.user, r.currencyFrom, r.id).amountFrom else 0
  {
    var info := Account(s, r.user, r.currencyFrom);
    var info' := info.(exchangeRequests := info.exchangeRequests - {r.id});
    SumRemove(info.exchangeRequests, r.id, CompletedOf());
    TotalSetAccount(s, r.user, r.currencyFrom, info', c, FlowOf());
  }

  lemma WithoutIncomingFlow(s: State, r: X.ExchangeOrderUpd, c: Currency)
    requires IncomingAt(s, r.user, r.currencyTo, r.id)
    ensures Total(WithoutIncoming(s, r), c, FlowOf())
      == Total(s, c, FlowOf()) - if c == r.currencyTo then AmountAt(s, r.user, r.currencyTo, r.id) else 0
  {
    var info := Account(s, r.user, r.currencyTo);
    var info' := info.(incomingExchangeRequests := info.incomingExchangeRequests - {r.id});
    SumRemove(info.incomingExchangeRequests, r.id, IncomingOf());
    TotalSetAccount(s, r.user, r.currencyTo, info', c, FlowOf());
  }

  /** An exchange moves as much between the users as between the wallet's records. */
  lemma ForgottenBalance(s: State, r: X.ExchangeOrderUpd, c: Currency)
    requires OrderAt(s, r.user, r.currencyFrom, r.id) && IncomingAt(s, r.user, r.currencyTo, r.id)
    requires r.id in s.exchangeState.exchanges && s.exchangeState.exchanges[r.id] == r
    requires var o := OrderOf(s, r.user, r.currencyFrom, r.id); o.status.Completed? && o.amountFrom == r.amountFrom
    requires AmountAt(s, r.user, r.currencyTo, r.id) == r.amountTo
    ensures BalancedIn(Forgotten(s, r), c) ==> BalancedIn(s, c)
  {
    var s1 := WithoutRecord(s, r.id);
    var s2 := WithoutOrder(s1, r);
    SumRemove(s.exchangeState.exchanges, r.id, X.PaidInOf(c));
    SumRemove(s.exchangeState.exchanges, r.id, X.PaidOutOf(c));
    assert Total(s1, c, FlowOf()) == Total(s, c, FlowOf());
    WithoutOrderFlow(s1, r, c);
    WithoutIncomingFlow(s2, r, c);
  }

  lemma NoExchangesFlow(s: State, u: UserId, c: Currency)
    requires Agreement(s) && s.exchangeState.exchanges == map[] && Has(s, u, c)
    ensures Flow(Account(s, u, c)) == 0
  {
    var info := Account(s, u, c);
    forall id ensures id !in info.incomingExchangeRequests {
      assert IncomingAt(s, u, c, id) ==> Accounted(s, u, c, id);
    }
    assert info.incomingExchangeRequests == map[];
    forall id | id in info.exchangeRequests ensures CompletedOf()(info.exchangeRequests[id]) == 0 {
      assert OrderAt(s, u, c, id) && OrderOf(s, u, c, id) == info.exchangeRequests[id];
    }
    SumZero(info.exchangeRequests, CompletedOf());
  }

  lemma NoExchangesBalance(s: State, c: Currency)
    requires Agreement(s) && s.exchangeState.exchanges == map[]
    ensures BalancedIn(s, c)
  {
    forall u | u in s.users ensures UserShare(c, FlowOf())(s.users[u]) == 0 {
      if Has(s, u, c) {
        NoExchangesFlow(s, u, c);
      }
    }
    SumZero(s.users, UserShare(c, FlowOf()));
  }

  /** What a record of the wallet stands for. */
  lemma RecordStandsFor(s: State, id: Uuid)
    requires Agreement(s) && id in s.exchangeState.exchanges
    ensures var r := s.exchangeState.exchanges[id];
      && r.id == id
      && OrderAt(s, r.user, r.currencyFrom, id) && IncomingAt(s, r.user, r.currencyTo, id)
      && OrderOf(s, r.user, r.currencyFrom, id).status.Completed?
      && OrderOf(s, r.user, r.currencyFrom, id).amountFrom == r.amountFrom
      && AmountAt(s, r.user, r.currencyTo, id) == r.amountTo
      && (forall u, c :: OrderAt(s, u, c, id) ==> u == r.user && c == r.currencyFrom)
      && (forall u, c :: IncomingAt(s, u, c, id) ==> u == r.user && c == r.currencyTo)
  {
    var r := s.exchangeState.exchanges[id];
    assert Backed(s, id, r);
    var o := OrderOf(s, r.user, r.currencyFrom, id);
    assert o.ToUpd() == r;
    assert Honoured(s, r.user, id, o);
  }

  /**
   In agreement the books balance: what completed exchanges gave the users, the wallet's
   records gave up, in every currency. Exchange by exchange, both sides move alike.
   */
  lemma {:induction false} AgreementBalances(s: State, c: Currency)
    requires Agreement(s)
    ensures BalancedIn(s, c)
    decreases |s.exchangeState.exchanges|
  {
    hide Agreement, BalancedIn, SameButFor, Forgotten;
    if s.exchangeState.exchanges == map[] {
      NoExchangesBalance(s, c);
    } else {
      var id :| id in s.exchangeState.exchanges;
      var r := s.exchangeState.exchanges[id];
      RecordStandsFor(s, id);
      ForgottenIsSame(s, r);
      ForgottenAgrees(s, Forgotten(s, r), id);
      ForgottenShrinks(s, r);
      AgreementBalances(Forgotten(s, r), c);
      ForgottenBalance(s, r, c);
    }
  }

  lemma ForgottenShrinks(s: State, r: X.ExchangeOrderUpd)
    requires OrderAt(s, r.user, r.currencyFrom, r.id) && IncomingAt(s, r.user, r.currencyTo, r.id)
    requires r.id in s.exchangeState.exchanges
    ensures |Forgotten(s, r).exchangeState.exchanges| < |s.exchangeState.exchanges|
  {}

  // ---------- The exchange steps ----------

  /** How replacing one order moves an account's flow and escrow. */
  lemma OrderMoves(info: UserCurrencyInfo, order: X.ExchangeOrder)
    ensures var info' := info.(exchangeRequests := info.exchangeRequests[order.id := order]);
      var before := if order.id in info.exchangeRequests then Some(info.exchangeRequests[order.id]) else None;
      && Flow(info') == Flow(info) + (if before.Some? then CompletedOf()(before.value) else 0) - CompletedOf()(order)
      && Escrow(info') == Escrow(info) - (if before.Some? then EscrowOf()(before.value) else 0) + EscrowOf()(order)
      && Net(info') == Net(info) + (if before.Some? then OutgoingOf()(before.value) else 0) - OutgoingOf()(order)
  {
    SumUpdate(info.exchangeRequests, order.id, order, CompletedOf());
    SumUpdate(info.exchangeRequests, order.id, order, EscrowOf());
    SumUpdate(info.exchangeRequests, order.id, order, OutgoingOf());
  }

  /** A decision keeps the books balanced, whether it completes the order or rejects it. */
  lemma OrderSettledBalanced(s: State, d: X.ExchangeDecision)
    requires StateOk(s) && Agreement(s) && OrderSettled(s, d).Ok? && (d.decision.Confirm? ==> RepeatsOrder(s, d))
    ensures Balanced(OrderSettled(s, d).value)
  {
    hide StateOk, Agreement, OrderSettled, BalancedIn;
    OrderSettledAgrees(s, d);
    forall c ensures BalancedIn(OrderSettled(s, d).value, c) {
      AgreementBalances(OrderSettled(s, d).value, c);
    }
  }

  // ---------- The cached balances ----------

  /**
   A confirmation keeps the cached balances right exactly when the wallet already keeps a
   balance in the currency it pays out, or that is the currency it takes in, or the amount
   is its own negation modulo 2^64.
   */
  lemma ConfirmationReconciledIff(s: State, d: X.ExchangeDecision)
    requires StateOk(s) && Agreement(s) && X.Reconciled(s.exchangeState)
    requires OrderSettled(s, d).Ok? && d.decision.Confirm?
    ensures var o := OrderOf(s, d.user, d.currencyFrom, d.id);
      X.Reconciled(OrderSettled(s, d).value.exchangeState) <==>
        || o.currencyTo in s.exchangeState.balances || o.currencyTo == o.currencyFrom
        || o.amountTo == 0 || o.amountTo == TWO_TO_THE_63
  {
    FirstHalfEffect(s, d);
    UndecidedIsUnrecorded(s, d.user, d.currencyFrom, d.id);
    X.ProcessOrderReconciledIff(s.exchangeState, OrderOf(s, d.user, d.currencyFrom, d.id).ToUpd());
  }

  /** What an accepted update must respect for the cached balances to stay right, and all it must (`StepCacheIff`). */
  ghost predicate KeepsCache(s: State, body: UpdateBody) {
    match body
    case ExchangeDecision(d) => d.decision.Confirm? ==> PayoutCached(s, d)
    case UpdateBtcTx(tx) =>
      IsExchangeAddress(s, BtcAddress(tx.address)) ==>
        var known := T.Lookup(s.exchangeState.deposits, tx.Key());
        tx.amount < 0 || known.None? || known.value.amount == tx.amount
    case CancelBtcTx(cancel) =>
      IsExchangeAddress(s, BtcAddress(cancel.address)) ==>
        var known := T.Lookup(s.exchangeState.deposits, cancel.Key());
        known.None? || known.value.amount == AsI64(cancel.amount)
    case Snapshot(st) => X.Reconciled(st.exchangeState)
    case _ => true
  }

  /** The wallet keeps a balance in the currency the order buys, or the payout does not need one. */
  ghost predicate PayoutCached(s: State, d: X.ExchangeDecision) {
    OrderAt(s, d.user, d.currencyFrom, d.id) ==>
      var o := OrderOf(s, d.user, d.currencyFrom, d.id);
      || o.currencyTo in s.exchangeState.balances || o.currencyTo == o.currencyFrom
      || o.amountTo == 0 || o.amountTo == TWO_TO_THE_63
  }

  lemma OrderSettledCacheIff(s: State, d: X.ExchangeDecision)
    requires StateOk(s) && Agreement(s) && X.Reconciled(s.exchangeState) && OrderSettled(s, d).Ok?
    ensures X.Reconciled(OrderSettled(s, d).value.exchangeState) <==> (d.decision.Confirm? ==> PayoutCached(s, d))
  {
    hide X.Reconciled;
    if d.decision.Confirm? {
      ConfirmationReconciledIff(s, d);
    } else {
      FirstHalfEffect(s, d);
    }
  }

  lemma UserStepKeepsWallet(s: State, upd: StateUpdate, nd: Nondet)
    requires AboutUsers(upd.body) && HandleUser(s, upd.created, upd.body, nd).Ok?
    ensures HandleUser(s, upd.created, upd.body, nd).value.exchangeState == s.exchangeState
  {}

  /** Only orders, exchange deposits and their cancels touch the wallet's books. */
  lemma WalletUntouched(s: State, upd: StateUpdate, nd: Nondet)
    requires !AboutUsers(upd.body) && HandleOther(s, upd.created, upd.body, nd).Ok?
    requires !upd.body.ExchangeDecision? && !upd.body.UpdateBtcTx? && !upd.body.CancelBtcTx? && !upd.body.Snapshot?
    ensures var y := HandleOther(s, upd.created, upd.body, nd).value.state.exchangeState;
      y == s.exchangeState.(addresses := y.addresses)
  {}

  lemma OtherStepCacheIff(s: State, upd: StateUpdate, nd: Nondet, after: State)
    requires StateOk(s) && Agreement(s) && X.Reconciled(s.exchangeState) && !AboutUsers(upd.body)
    requires HandleOther(s, upd.created, upd.body, nd).Ok?
      && HandleOther(s, upd.created, upd.body, nd).value.state == after
    ensures X.Reconciled(after.exchangeState) <==> KeepsCache(s, upd.body)
  {
    hide StateOk, Agreement, X.Reconciled, OrderSettled, PayoutCached;
    if upd.body.ExchangeDecision? {
      OrderSettledCacheIff(s, upd.body.decision);
    } else if upd.body.UpdateBtcTx? {
      X.IncomingReconciledIff(s.exchangeState, upd.body.tx);
    } else if upd.body.CancelBtcTx? {
      X.CancelReconciledIff(s.exchangeState, upd.body.cancel);
    } else if !upd.body.Snapshot? {
      WalletUntouched(s, upd, nd);
      SameBooks(s.exchangeState, after.exchangeState);
    }
  }

  /** An accepted update keeps the cached balances right exactly under that condition. */
  lemma StepCacheIff(s: State, upd: StateUpdate, nd: Nondet)
    requires StateOk(s) && Agreement(s) && X.Reconciled(s.exchangeState) && Apply(s, upd, nd).Ok?
    ensures X.Reconciled(Apply(s, upd, nd).value.state.exchangeState) <==> KeepsCache(s, upd.body)
  {
    hide StateOk, Agreement, X.Reconciled;
    ApplyStamps(s, upd, nd);
    if AboutUsers(upd.body) {
      UserStepKeepsWallet(s, upd, nd);
    } else {
      OtherStepCacheIff(s, upd, nd, HandleOther(s, upd.created, upd.body, nd).value.state);
    }
  }

  lemma SameBooks(x: X.ExchangeState, y: X.ExchangeState)
    requires X.Reconciled(x) && y == x.(addresses := y.addresses)
    ensures X.Reconciled(y)
  {
    forall c ensures X.Cached(y, c) == AsI64(X.Recomputed(y, c)) {
      assert X.Cached(x, c) == AsI64(X.Recomputed(x, c));
    }
  }

  // ---------- Every step, every run ----------

  /** Every accepted careful update keeps the books balanced, and the cached balances right exactly when it should. */
  lemma StepKeepsBooks(s: State, upd: StateUpdate, nd: Nondet)
    requires StateOk(s) && Agreement(s) && Careful(s, upd.body) && SnapshotOk(upd.body) && Apply(s, upd, nd).Ok?
    ensures var after := Apply(s, upd, nd).value.state;
      && StateOk(after) && Agreement(after) && Balanced(after)
      && (X.Reconciled(s.exchangeState) ==> (X.Reconciled(after.exchangeState) <==> KeepsCache(s, upd.body)))
  {
    hide StateOk, Agreement, X.Reconciled, KeepsCache, Careful, BalancedIn, SnapshotOk, Apply;
    var after := Apply(s, upd, nd).value.state;
    StepKeepsOk(s, upd, nd);
    StepKeepsAgreement(s, upd, nd);
    forall c ensures BalancedIn(after, c) {
      AgreementBalances(after, c);
    }
    if X.Reconciled(s.exchangeState) {
      StepCacheIff(s, upd, nd);
    }
  }

  /** Every update a run accepts keeps the cache in the state it meets. */
  ghost predicate CacheKeptRun(s: State, steps: seq<Step>) {
    forall i :: 0 <= i < |steps| ==> CacheKeptStep(Run(s, steps[..i]), steps[i])
  }

  ghost predicate CacheKeptStep(s: State, step: Step) {
    Apply(s, step.update, step.nd).Ok? ==> KeepsCache(s, step.update.body)
  }

  /** The cached balances are the recomputed ones in every state of the run. */
  ghost predicate ReconciledThroughout(s: State, steps: seq<Step>) {
    forall i :: 0 <= i <= |steps| ==> X.Reconciled(Run(s, steps[..i]).exchangeState)
  }

  lemma CacheRunsAppend(s: State, steps: seq<Step>)
    requires steps != []
    ensures var init, last := steps[..|steps| - 1], steps[|steps| - 1];
      && (CacheKeptRun(s, steps) <==> CacheKeptRun(s, init) && CacheKeptStep(Run(s, init), last))
      && (ReconciledThroughout(s, steps)
          <==> ReconciledThroughout(s, init) && X.Reconciled(Run(s, steps).exchangeState))
  {
    hide Run, CacheKeptStep, X.Reconciled;
    var init := steps[..|steps| - 1];
    forall i | 0 <= i <= |init| ensures steps[..i] == init[..i] {
    }
    assert steps[..|steps|] == steps;
    if CacheKeptRun(s, steps) {
      forall i | 0 <= i < |init| ensures CacheKeptStep(Run(s, init[..i]), init[i]) {
        assert CacheKeptStep(Run(s, steps[..i]), steps[i]);
      }
    }
    if ReconciledThroughout(s, steps) {
      forall i | 0 <= i <= |init| ensures X.Reconciled(Run(s, init[..i]).exchangeState) {
        assert X.Reconciled(Run(s, steps[..i]).exchangeState);
      }
    }
  }

  lemma AdvanceCacheIff(s: State, step: Step)
    requires StateOk(s) && Agreement(s) && X.Reconciled(s.exchangeState)
    ensures X.Reconciled(Advance(s, step).exchangeState) <==> CacheKeptStep(s, step)
  {
    hide StateOk, Agreement, X.Reconciled, KeepsCache, Apply;
    if Apply(s, step.update, step.nd).Ok? {
      StepCacheIff(s, step.update, step.nd);
    }
  }

  /** Over a careful run the cached balances stay right throughout exactly when every accepted update keeps them so. */
  lemma {:induction false} ReconciledThroughoutIff(s: State, steps: seq<Step>)
    requires StateOk(s) && Agreement(s) && X.Reconciled(s.exchangeState) && SnapshotsOk(steps) && CarefulRun(s, steps)
    ensures ReconciledThroughout(s, steps) <==> CacheKeptRun(s, steps)
    decreases |steps|
  {
    hide StateOk, Agreement, X.Reconciled, CacheKeptStep, CarefulStep, Advance, SnapshotOk;
    if steps == [] {
      assert steps[..0] == [];
    } else {
      var init := steps[..|steps| - 1];
      CarefulRunAppend(s, steps);
      ReconciledThroughoutIff(s, init);
      CacheRunsAppend(s, steps);
      RunKeepsAgreement(s, init);
      if ReconciledThroughout(s, init) {
        assert init[..|init|] == init;
        AdvanceCacheIff(Run(s, init), steps[|steps| - 1]);
      }
    }
  }

  lemma NewStateBooks(network: Network, now: Time)
    ensures StateOk(NewState(network, now)) && Agreement(NewState(network, now))
    ensures X.Reconciled(NewState(network, now).exchangeState)
  {
    hide X.Reconciled, StateOk, Agreement, GenesisHash;
    X.NewWalletReconciled();
    EmptyStateAgrees(NewState(network, now));
  }

  lemma EmptyStateAgrees(s: State)
    requires s.users == map[] && s.exchangeState.exchanges == map[]
    ensures StateOk(s) && Agreement(s)
  {}

  // ---------- Conservation ----------

  /** Everything held in `c`: users' exact balances, orders in escrow, and the exchange wallet. */
  ghost function Holdings(s: State, c: Currency): int {
    Total(s, c, NetOf()) + Total(s, c, EscrowedOf()) + X.Recomputed(s.exchangeState, c)
  }

  /** Everything that came in from the chain, less everything withdrawn. */
  ghost function Funding(s: State, c: Currency): int {
    Total(s, c, DepositedOf()) - Total(s, c, WithdrawnOf())
    + if c == BTC then T.AmountSum(s.exchangeState.deposits) else 0
  }

  lemma TotalsAddUp(s: State, c: Currency)
    ensures Total(s, c, NetOf()) + Total(s, c, EscrowedOf()) + Total(s, c, WithdrawnOf())
         == Total(s, c, DepositedOf()) + Total(s, c, FlowOf())
  {
    var left := (user: UserInfo) => Of(user, c, NetOf()) + Of(user, c, EscrowedOf());
    var right := (user: UserInfo) => Of(user, c, DepositedOf()) + Of(user, c, FlowOf());
    var all := (user: UserInfo) => left(user) + Of(user, c, WithdrawnOf());
    SumSplit(s.users, left, UserShare(c, NetOf()), UserShare(c, EscrowedOf()));
    SumSplit(s.users, right, UserShare(c, DepositedOf()), UserShare(c, FlowOf()));
    SumSplit(s.users, all, left, UserShare(c, WithdrawnOf()));
    forall u | u in s.users ensures all(s.users[u]) == right(s.users[u]) {
      if Has(s, u, c) {
        AccountBooks(Account(s, u, c));
      }
    }
    SumSame(s.users, s.users, all, right);
  }

  /** In agreement no currency was created or lost: what is held is what came in less what went out. */
  lemma HoldingsAreFunded(s: State, c: Currency)
    requires Agreement(s)
    ensures Holdings(s, c) == Funding(s, c)
  {
    hide Agreement;
    TotalsAddUp(s, c);
    AgreementBalances(s, c);
  }

  /**
   Conservation over every run of a new custody whose accepted updates are careful, with no
   condition on the cached balances; these are the recomputed ones, throughout, exactly when
   every accepted update keeps them so.
   */
  lemma ReachableHoldingsAreFunded(network: Network, now: Time, steps: seq<Step>, c: Currency)
    requires SnapshotsOk(steps) && CarefulRun(NewState(network, now), steps)
    ensures var s := Run(NewState(network, now), steps); Holdings(s, c) == Funding(s, c)
    ensures ReconciledThroughout(NewState(network, now), steps) <==> CacheKeptRun(NewState(network, now), steps)
  {
    hide StateOk, Agreement, Run, CarefulRun, SnapshotsOk, Holdings, Funding, ReconciledThroughout, CacheKeptRun,
      X.Reconciled, NewState;
    NewStateBooks(network, now);
    RunKeepsAgreement(NewState(network, now), steps);
    HoldingsAreFunded(Run(NewState(network, now), steps), c);
    ReconciledThroughoutIff(NewState(network, now), steps);
  }
}
