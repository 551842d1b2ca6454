/** Exchange requests cannot overspend, and exchange steps move value without creating any. */
module Solvency {
  import opened Domain
  import opened Collections
  import opened Accounts
  import opened Updates
  import opened StateMachine
  import opened Invariants
  import opened Runs
  import opened ExchangeAgreement
  import opened Conservation
  import W = Withdrawals
  import X = Exchanges

  ghost predicate FreshOn(s: State, r: X.ExchangeOrderUpd) {
    Has(s, r.user, r.currencyFrom) ==> r.id !in Account(s, r.user, r.currencyFrom).exchangeRequests
  }

  /** The account after placing a fresh order: lighter by the amount, and still in range. */
  lemma OrderTakesAmount(info: UserCurrencyInfo, r: X.ExchangeOrderUpd)
    requires NetFits(info) && r.id !in info.exchangeRequests && Balance(info) >= r.amountFrom
    ensures var after := info.(exchangeRequests := info.exchangeRequests[r.id := X.NewOrder(r)]);
      && Net(after) == Net(info) - r.amountFrom
      && Balance(after) == Balance(info) - r.amountFrom
      && (Net(info) >= 0 ==> Net(after) >= 0)
      && NetFits(after)
  {
    OrderMoves(info, X.NewOrder(r));
    var after := info.(exchangeRequests := info.exchangeRequests[r.id := X.NewOrder(r)]);
    SpendWithin(Net(info), Net(after), r.amountFrom);
  }

  /** Spending no more than the clamped balance, on the numbers alone. */
  lemma SpendWithin(net: int, after: int, amount: u64)
    requires -TWO_TO_THE_63 <= net < TWO_TO_THE_63 && after == net - amount && Clamped(AsI64(net)) >= amount
    ensures -TWO_TO_THE_63 <= after < TWO_TO_THE_63 && Clamped(AsI64(after)) == Clamped(AsI64(net)) - amount
    ensures net >= 0 ==> after >= 0
  {
    assert AsI64(net) == net;
  }

  /** A request is accepted exactly on an account whose balance covers it, and is stored as it was asked. */
  lemma RequestAcceptedIff(s: State, r: X.ExchangeOrderUpd)
    ensures OrderRequested(s, r).Ok? <==>
      Has(s, r.user, r.currencyFrom) && r.amountFrom <= Balance(Account(s, r.user, r.currencyFrom))
    ensures Has(s, r.user, r.currencyFrom) && NetFits(Account(s, r.user, r.currencyFrom)) ==>
      (OrderRequested(s, r).Ok? <==> r.amountFrom == 0 || r.amountFrom <= Net(Account(s, r.user, r.currencyFrom)))
    ensures OrderRequested(s, r).Err? ==>
      OrderRequested(s, r) == Err(
        if r.user !in s.users then UserNotFound(r.user)
        else if !Has(s, r.user, r.currencyFrom) then UserMissingCurrency(r.user, r.currencyFrom)
        else InsufficientFunds(r.user, r.currencyFrom))
    ensures OrderRequested(s, r).Ok? ==>
      var s' := OrderRequested(s, r).value;
      && OrderAt(s', r.user, r.currencyFrom, r.id)
      && var o := OrderOf(s', r.user, r.currencyFrom, r.id);
      && o.status == X.InProgress(0, 0) && o.confirmations == []
      && o.currencyTo == r.currencyTo && o.amountFrom == r.amountFrom && o.amountTo == r.amountTo
      && o.id == r.id && o.user == r.user && o.currencyFrom == r.currencyFrom && o.createdAt == r.createdAt
  {}

  lemma DisableOnNumbers(net: int)
    ensures Clamped(AsI64(net)) > 0 <==> 0 < net % TWO_TO_THE_64 < TWO_TO_THE_63
    ensures -TWO_TO_THE_63 <= net < TWO_TO_THE_63 ==> (Clamped(AsI64(net)) > 0 <==> net > 0)
  {}

  /**
   A token can be dropped exactly when it is enabled and its exact balance is not positive, modulo
   2^64; otherwise the balance is named as the reason.
   */
  lemma DisableAcceptedIff(s: State, t: TokenUpdate)
    requires t.action.Disable? && Has(s, t.user, ERC20(t.token))
    ensures var net := Net(Account(s, t.user, ERC20(t.token)));
      && (TokensUpdated(s, t).Ok? <==> !(0 < net % TWO_TO_THE_64 < TWO_TO_THE_63))
      && (-TWO_TO_THE_63 <= net < TWO_TO_THE_63 ==> (TokensUpdated(s, t).Ok? <==> net <= 0))
      && (TokensUpdated(s, t).Err? ==> TokensUpdated(s, t) == Err(TokenNonZeroBalance(t.token)))
  {
    DisableOnNumbers(Net(Account(s, t.user, ERC20(t.token))));
  }

  /** Every accepted request with a fresh id lowers the balance of `currency_from` by exactly its amount. */
  lemma RequestLowersBalance(s: State, r: X.ExchangeOrderUpd)
    requires OrderRequested(s, r).Ok? && FreshOn(s, r) && NetFits(Account(s, r.user, r.currencyFrom))
    ensures var s', c := OrderRequested(s, r).value, r.currencyFrom;
      var before, after := Account(s, r.user, c), Account(s', r.user, c);
      && Net(after) == Net(before) - r.amountFrom
      && Balance(after) == Balance(before) - r.amountFrom
      && (Net(before) >= 0 ==> Net(after) >= 0)
      && NetFits(after)
  {
    OrderTakesAmount(Account(s, r.user, r.currencyFrom), r);
  }

  /** Rejecting an order returns exactly its amount. */
  lemma RejectionReturnsAmount(s: State, d: X.ExchangeDecision)
    requires StateOk(s) && OrderSettled(s, d).Ok? && d.decision.Reject?
    ensures Net(Account(OrderSettled(s, d).value, d.user, d.currencyFrom))
         == Net(Account(s, d.user, d.currencyFrom)) + OrderOf(s, d.user, d.currencyFrom, d.id).amountFrom
  {
    FirstHalfEffect(s, d);
    assert Decided(s, d).ToUpd() == OrderOf(s, d.user, d.currencyFrom, d.id).ToUpd();
    OrderMoves(Account(s, d.user, d.currencyFrom), Decided(s, d));
  }

  // ---------- One exchange, from the request to the confirmation ----------

  /** The decision confirms this request, as it was asked. */
  predicate ConfirmsRequest(d: X.ExchangeDecision, r: X.ExchangeOrderUpd) {
    && d.decision.Confirm? && d.user == r.user && d.id == r.id
    && d.currencyFrom == r.currencyFrom && d.currencyTo == r.currencyTo && d.amountTo == r.amountTo
  }

  /** What an exchange brings the user in `c`, and what it costs there. */
  function Gain(r: X.ExchangeOrderUpd, c: Currency): int {
    (if c == r.currencyTo then r.amountTo else 0) - Price(r, c)
  }

  function Price(r: X.ExchangeOrderUpd, c: Currency): int {
    if c == r.currencyFrom then r.amountFrom else 0
  }

  lemma IncomingMoves(info: UserCurrencyInfo, id: Uuid, amount: u64)
    requires id !in info.incomingExchangeRequests
    ensures Net(info.(incomingExchangeRequests := info.incomingExchangeRequests[id := amount])) == Net(info) + amount
  {
    SumUpdate(info.incomingExchangeRequests, id, amount, IncomingOf());
  }

  /** Placing the order takes the price, in the one currency it is paid in. */
  lemma PlacedNet(s: State, r: X.ExchangeOrderUpd, c: Currency)
    requires OrderRequested(s, r).Ok? && FreshOn(s, r) && Has(s, r.user, c)
    ensures var s' := OrderRequested(s, r).value;
      && Has(s', r.user, c)
      && Net(Account(s', r.user, c)) == Net(Account(s, r.user, c)) - Price(r, c)
      && Account(s', r.user, c).incomingExchangeRequests == Account(s, r.user, c).incomingExchangeRequests
  {
    OrderMoves(Account(s, r.user, r.currencyFrom), X.NewOrder(r));
  }

  /** Completing an undecided order takes nothing more. */
  lemma CompletedNet(s: State, d: X.ExchangeDecision, r: X.ExchangeOrderUpd, c: Currency)
    requires ConfirmsRequest(d, r) && OrderAt(s, r.user, r.currencyFrom, r.id) && Has(s, r.user, c)
    requires OrderOf(s, r.user, r.currencyFrom, r.id) == X.NewOrder(r)
    ensures OrderDecided(s, d).Ok? && OrderDecided(s, d).value.1
    ensures var half := OrderDecided(s, d).value.0;
      && Has(half, r.user, c)
      && Net(Account(half, r.user, c)) == Net(Account(s, r.user, c))
      && Account(half, r.user, c).incomingExchangeRequests == Account(s, r.user, c).incomingExchangeRequests
      && half.exchangeState == X.Booked(s.exchangeState, r)
  {
    hide X.Booked;
    var order := X.NewOrder(r);
    assert X.DecideOrder(order, d).Ok? && X.DecideOrder(order, d).value.1;
    var decided := X.DecideOrder(order, d).value.0;
    assert decided.ToUpd() == r && decided.status.Completed?;
    OrderMoves(Account(s, r.user, r.currencyFrom), decided);
  }

  lemma ReceivedNet(s: State, d: X.ExchangeDecision, c: Currency)
    requires Has(s, d.user, c) && Has(s, d.user, d.currencyTo)
    requires d.id !in Account(s, d.user, d.currencyTo).incomingExchangeRequests
    ensures IncomingAdded(s, d).Ok?
    ensures var s' := IncomingAdded(s, d).value;
      && Has(s', d.user, c) && s'.exchangeState == s.exchangeState
      && Net(Account(s', d.user, c)) == Net(Account(s, d.user, c)) + if c == d.currencyTo then d.amountTo else 0
  {
    IncomingMoves(Account(s, d.user, d.currencyTo), d.id, d.amountTo);
  }

  /**
   An exchange delivers what was asked: a fresh request and the confirmation of it move the user's
   exact balance in every currency by the amount bought less the price, and nothing else, and the
   exchange wallet's books by the opposite.
   */
  lemma ExchangeDelivers(s: State, r: X.ExchangeOrderUpd, d: X.ExchangeDecision, c: Currency)
    requires OrderRequested(s, r).Ok? && FreshOn(s, r) && ConfirmsRequest(d, r)
    requires Has(s, r.user, c) && Has(s, r.user, r.currencyTo)
    requires r.id !in Account(s, r.user, r.currencyTo).incomingExchangeRequests && r.id !in s.exchangeState.exchanges
    ensures OrderSettled(OrderRequested(s, r).value, d).Ok?
    ensures var s' := OrderSettled(OrderRequested(s, r).value, d).value;
      && Has(s', r.user, c)
      && Net(Account(s', r.user, c)) == Net(Account(s, r.user, c)) + Gain(r, c)
      && X.Recomputed(s'.exchangeState, c) == X.Recomputed(s.exchangeState, c) - Gain(r, c)
  {
    hide OrderRequested, OrderDecided, IncomingAdded, Net, X.Recomputed, X.Booked, FreshOn;
    PlacedNet(s, r, c);
    PlacedNet(s, r, r.currencyTo);
    OrderStored(s, r);
    var placed := OrderRequested(s, r).value;
    CompletedNet(placed, d, r, c);
    CompletedNet(placed, d, r, r.currencyTo);
    ReceivedNet(OrderDecided(placed, d).value.0, d, c);
    X.ProcessOrderRecomputed(s.exchangeState, r, c);
  }

  lemma OrderStored(s: State, r: X.ExchangeOrderUpd)
    requires OrderRequested(s, r).Ok?
    ensures var s' := OrderRequested(s, r).value;
      && s'.exchangeState == s.exchangeState
      && OrderAt(s', r.user, r.currencyFrom, r.id) && OrderOf(s', r.user, r.currencyFrom, r.id) == X.NewOrder(r)
  {}

  // ---------- Withdrawals ----------

  /**
   A withdrawal is not checked against the balance: a new one always takes its amount off
   the exact balance, and overdraws the account exactly when it asks for more than there is.
   */
  lemma WithdrawalOverdrawsIff(s: State, created: Time, w: W.WithdrawalRequestInfo)
    requires WithdrawalCreated(s, created, w).Ok?
    requires w.id !in Account(s, w.user, w.address.Currency()).withdrawalRequests
    ensures var c := w.address.Currency();
      var before, after := Account(s, w.user, c), Account(WithdrawalCreated(s, created, w).value.state, w.user, c);
      && Net(after) == Net(before) - w.amount
      && (Net(after) < 0 <==> w.amount > Net(before))
  {
    var info := Account(s, w.user, w.address.Currency());
    SumUpdate(info.withdrawalRequests, w.id, W.NewRequest(created, w), CostOf());
  }

  // ---------- Runs of requests ----------

  /** A run of exchange requests whose accepted ones have fresh ids; refused ones may be anything. */
  ghost predicate FreshRequests(s: State, steps: seq<Step>) {
    forall i :: 0 <= i < |steps| ==> IsFreshRequest(Run(s, steps[..i]), steps[i])
  }

  ghost predicate IsFreshRequest(s: State, step: Step) {
    step.update.body.ExchangeRequest? && (Apply(s, step.update, step.nd).Ok? ==> FreshOn(s, step.update.body.order))
  }

  /** What a request takes from one account. */
  ghost function TakenBy(s: State, step: Step, u: UserId, c: Currency): int {
    var body := step.update.body;
    if body.ExchangeRequest? && body.order.user == u && body.order.currencyFrom == c
      && Apply(s, step.update, step.nd).Ok?
    then body.order.amountFrom else 0
  }

  /** What the accepted requests of a run took from one account. */
  ghost function Taken(s: State, steps: seq<Step>, u: UserId, c: Currency): int {
    if steps == [] then 0
    else Taken(s, steps[..|steps| - 1], u, c) + TakenBy(Run(s, steps[..|steps| - 1]), steps[|steps| - 1], u, c)
  }

  /** An account whose exact balance is non-negative and in range. */
  ghost predicate Solvent(s: State, u: UserId, c: Currency) {
    Has(s, u, c) && 0 <= Net(Account(s, u, c)) < TWO_TO_THE_63
  }

  lemma OtherAccountsKept(s: State, r: X.ExchangeOrderUpd, u: UserId, c: Currency)
    requires OrderRequested(s, r).Ok? && Has(s, u, c) && !(r.user == u && r.currencyFrom == c)
    ensures Has(OrderRequested(s, r).value, u, c) && Account(OrderRequested(s, r).value, u, c) == Account(s, u, c)
  {}

  lemma RequestKeepsSolvent(s: State, r: X.ExchangeOrderUpd, u: UserId, c: Currency)
    requires OrderRequested(s, r).Ok? && FreshOn(s, r) && Solvent(s, u, c)
    ensures var s' := OrderRequested(s, r).value;
      && Solvent(s', u, c)
      && Net(Account(s', u, c))
        == Net(Account(s, u, c)) - if r.user == u && r.currencyFrom == c then r.amountFrom else 0
  {
    if r.user == u && r.currencyFrom == c {
      RequestLowersBalance(s, r);
    } else {
      OtherAccountsKept(s, r, u, c);
    }
  }

  lemma StampedAccounts(s: State, t: Time, u: UserId, c: Currency)
    requires Solvent(s, u, c)
    ensures var s' := s.(lastChanged := t); Solvent(s', u, c) && Account(s', u, c) == Account(s, u, c)
  {}

  lemma AdvanceRequest(s: State, step: Step, u: UserId, c: Currency)
    requires IsFreshRequest(s, step) && Solvent(s, u, c)
    ensures var s' := Advance(s, step);
      Solvent(s', u, c) && Net(Account(s', u, c)) == Net(Account(s, u, c)) - TakenBy(s, step, u, c)
  {
    if Apply(s, step.update, step.nd).Ok? {
      var r := step.update.body.order;
      RequestKeepsSolvent(s, r, u, c);
      StampedAccounts(OrderRequested(s, r).value, step.update.created, u, c);
    }
  }

  /**
   No run of exchange requests, by anyone, drives a non-negative balance below zero; each
   account loses exactly what it was asked for.
   */
  lemma {:induction false} RequestsNeverOverspend(s: State, steps: seq<Step>, u: UserId, c: Currency)
    requires FreshRequests(s, steps) && Solvent(s, u, c)
    ensures var s' := Run(s, steps);
      Solvent(s', u, c) && Net(Account(s', u, c)) == Net(Account(s, u, c)) - Taken(s, steps, u, c)
    decreases |steps|
  {
    hide Apply, Solvent, Advance, IsFreshRequest;
    if steps != [] {
      var init, last := steps[..|steps| - 1], steps[|steps| - 1];
      forall i | 0 <= i < |init| ensures IsFreshRequest(Run(s, init[..i]), init[i]) {
        assert init[..i] == steps[..i];
      }
      RequestsNeverOverspend(s, init, u, c);
      AdvanceRequest(Run(s, init), last, u, c);
    }
  }

  // ---------- Exchange steps conserve value ----------

  /** Deposits and withdrawals of every account stay the same. */
  ghost predicate SameFunding(s: State, s': State) {
    && s'.exchangeState.deposits == s.exchangeState.deposits
    && (forall c :: Total(s', c, DepositedOf()) == Total(s, c, DepositedOf()))
    && (forall c :: Total(s', c, WithdrawnOf()) == Total(s, c, WithdrawnOf()))
  }

  lemma SetAccountSameFunding(s: State, u: UserId, d: Currency, info: UserCurrencyInfo)
    requires Has(s, u, d)
    requires info.transactions == Account(s, u, d).transactions
      && info.withdrawalRequests == Account(s, u, d).withdrawalRequests
    ensures SameFunding(s, SetAccount(s, u, d, info))
  {
    forall c
      ensures Total(SetAccount(s, u, d, info), c, DepositedOf()) == Total(s, c, DepositedOf())
      ensures Total(SetAccount(s, u, d, info), c, WithdrawnOf()) == Total(s, c, WithdrawnOf())
    {
      TotalSetAccount(s, u, d, info, c, DepositedOf());
      TotalSetAccount(s, u, d, info, c, WithdrawnOf());
    }
  }

  lemma OrderSettledSameFunding(s: State, d: X.ExchangeDecision)
    requires OrderSettled(s, d).Ok?
    ensures SameFunding(s, OrderSettled(s, d).value)
  {
    var half := OrderDecided(s, d).value;
    var info := Account(s, d.user, d.currencyFrom);
    var info' := Account(half.0, d.user, d.currencyFrom);
    SetAccountSameFunding(s, d.user, d.currencyFrom, info');
    assert half.0.users == SetAccount(s, d.user, d.currencyFrom, info').users;
    if half.1 {
      SetAccountSameFunding(half.0, d.user, d.currencyTo, Account(OrderSettled(s, d).value, d.user, d.currencyTo));
    }
  }

  /** Exchange steps bring nothing in and take nothing out. */
  lemma ExchangeStepsKeepFunding(s: State, upd: StateUpdate, nd: Nondet)
    requires Handle(s, upd.created, upd.body, nd).Ok? && (upd.body.ExchangeRequest? || upd.body.ExchangeDecision?)
    ensures SameFunding(s, Handle(s, upd.created, upd.body, nd).value.state)
  {
    hide SameFunding, OrderSettled;
    var after := Handle(s, upd.created, upd.body, nd).value.state;
    if upd.body.ExchangeRequest? {
      var r := upd.body.order;
      SetAccountSameFunding(s, r.user, r.currencyFrom, Account(after, r.user, r.currencyFrom));
    } else {
      OrderSettledSameFunding(s, upd.body.decision);
    }
  }

  lemma SameFundingFunded(s: State, after: State, s': State, c: Currency)
    requires SameFunding(s, after) && s'.users == after.users && s'.exchangeState == after.exchangeState
    ensures Funding(s', c) == Funding(s, c)
  {}

  /**
   Placing, confirming or rejecting an order conserves every currency: balances, escrow and
   the exchange wallet together hold what they held before.
   */
  lemma ExchangeStepsConserve(s: State, upd: StateUpdate, nd: Nondet, c: Currency)
    requires StateOk(s) && Agreement(s) && Careful(s, upd.body) && Apply(s, upd, nd).Ok?
    requires upd.body.ExchangeRequest? || upd.body.ExchangeDecision?
    ensures Holdings(Apply(s, upd, nd).value.state, c) == Holdings(s, c)
  {
    hide StateOk, Agreement, Careful, SameFunding, Holdings, Funding, Apply, Handle;
    ApplyStamps(s, upd, nd);
    var s', after := Apply(s, upd, nd).value.state, Handle(s, upd.created, upd.body, nd).value.state;
    StepKeepsAgreement(s, upd, nd);
    HoldingsAreFunded(s, c);
    HoldingsAreFunded(s', c);
    ExchangeStepsKeepFunding(s, upd, nd);
    SameFundingFunded(s, after, s', c);
  }
}
