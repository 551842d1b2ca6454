/**
 How the exchange wallet's cache goes wrong: a run that any custody can receive, in which a
 user enables a token of his own, buys it, and the wallet books the payout with the wrong
 sign because it keeps no balance in that token yet.
 */
module UnknownCurrency {
  import opened Domain
  import opened Accounts
  import opened Updates
  import opened StateMachine
  import opened Runs
  import opened Joining
  import T = Transactions
  import X = Exchanges

  /** Who buys what: the user and the deposit that pays, the token, the price in bitcoin and the amount bought. */
  datatype Purchase = Purchase(
    user: UserId, invite: Uuid, address: string, txid: Txid, token: Erc20Token, price: i64, amount: u64)
  {
    function Bought(): Currency {
      ERC20(token)
    }

    function Deposit(): T.BtcTransaction {
      T.BtcTransaction(txid, 0, address, 6, price, 0, [], None)
    }

    function Order(): X.ExchangeOrderUpd
      requires price >= 0
    {
      X.ExchangeOrderUpd(0, user, BTC, Bought(), price, amount, "")
    }

    function Confirmation(): X.ExchangeDecision
      requires price >= 0
    {
      X.ExchangeDecision(user, 0, BTC, Bought(), price, amount, "", 0, 0, 0, Confirm)
    }
  }

  /** A purchase for a price, of a token the wallet keeps no balance in. */
  predicate IsUnknown(p: Purchase) {
    p.price >= 0 && p.Bought() !in SUPPORTED && p.amount != 0 && p.amount != TWO_TO_THE_63
  }

  /** The buyer's account so far: addresses and deposits, nothing else; the wallet is new. */
  ghost predicate SoFar(s: State, p: Purchase, addresses: seq<CurrencyAddress>, deposits: seq<T.Transaction>) {
    && s.exchangeState == X.NewExchangeState()
    && Has(s, p.user, BTC)
    && Account(s, p.user, BTC) == NewAccount(BTC).(depositInfo := addresses, transactions := deposits)
  }

  lemma Joined(s: State, p: Purchase)
    requires IsUnknown(p) && JustJoined(s, p.user)
    ensures SoFar(s, p, [], []) && !Has(s, p.user, p.Bought())
  {}

  lemma AddressGiven(s: State, p: Purchase)
    requires SoFar(s, p, [], []) && !Has(s, p.user, p.Bought())
    ensures var after := DepositAddressAdded(s, p.user, BtcAddress(p.address));
      after.Ok? && SoFar(after.value, p, [BtcAddress(p.address)], []) && !Has(after.value, p.user, p.Bought())
  {}

  lemma Deposited(s: State, p: Purchase)
    requires p.price >= 0 && SoFar(s, p, [BtcAddress(p.address)], []) && !Has(s, p.user, p.Bought())
    ensures var after := BtcTxUpdated(s, p.Deposit(), ANY_PICK.(owner := Some(p.user)));
      SoFar(after, p, [BtcAddress(p.address)], [T.Btc(p.Deposit())]) && !Has(after, p.user, p.Bought())
  {
    assert OwnsAddress(s, p.user, BtcAddress(p.address));
    assert FindUserAddress(s, BtcAddress(p.address), ANY_PICK.(owner := Some(p.user))) == Some(p.user);
    assert T.Upsert([], p.Deposit()) == [T.Btc(p.Deposit())];
  }

  lemma TokenEnabled(s: State, p: Purchase, addresses: seq<CurrencyAddress>, deposits: seq<T.Transaction>)
    requires SoFar(s, p, addresses, deposits) && !Has(s, p.user, p.Bought())
    ensures var after := TokensUpdated(s, TokenUpdate(p.user, p.token, Enable));
      after.Ok? && SoFar(after.value, p, addresses, deposits) && Has(after.value, p.user, p.Bought())
  {}

  lemma PriceAvailable(info: UserCurrencyInfo, p: Purchase)
    requires p.price >= 0 && info.transactions == [T.Btc(p.Deposit())]
    requires info.incomingExchangeRequests == map[] && info.withdrawalRequests == map[]
      && info.exchangeRequests == map[]
    ensures Balance(info) == p.price
  {
    var txs := info.transactions;
    assert txs[..0] == [] && T.CountedSum([]) == 0;
    assert T.CountedSum(txs) == p.price;
    assert Movements(info) == 0;
  }

  lemma Ordered(s: State, p: Purchase)
    requires IsUnknown(p) && Has(s, p.user, p.Bought())
    requires SoFar(s, p, [BtcAddress(p.address)], [T.Btc(p.Deposit())])
    ensures var after := OrderRequested(s, p.Order());
      && after.Ok?
      && after.value.exchangeState == X.NewExchangeState()
      && Has(after.value, p.user, BTC) && Has(after.value, p.user, p.Bought())
      && Account(after.value, p.user, BTC).exchangeRequests == map[0 := X.NewOrder(p.Order())]
  {
    PriceAvailable(Account(s, p.user, BTC), p);
  }

  lemma Confirmed(s: State, p: Purchase)
    requires IsUnknown(p) && s.exchangeState == X.NewExchangeState()
    requires Has(s, p.user, BTC) && Has(s, p.user, p.Bought())
    requires Account(s, p.user, BTC).exchangeRequests == map[0 := X.NewOrder(p.Order())]
    ensures var after := OrderSettled(s, p.Confirmation());
      after.Ok? && after.value.exchangeState == X.Booked(X.NewExchangeState(), p.Order())
  {
    var order := X.NewOrder(p.Order());
    var decided := X.DecideOrder(order, p.Confirmation());
    assert decided.Ok? && decided.value.1 && decided.value.0.ToUpd() == p.Order();
    assert OrderDecided(s, p.Confirmation()).Ok?;
  }

  /** The wallet after booking the purchase: the amount paid out is cached as if it had come in. */
  lemma BookedWrong(p: Purchase)
    requires IsUnknown(p)
    ensures var x := X.Booked(X.NewExchangeState(), p.Order());
      && !X.Reconciled(x)
      && X.Cached(x, p.Bought()) == AsI64(p.amount)
      && X.Recomputed(x, p.Bought()) == -(p.amount as int)
  {
    var x0 := X.NewExchangeState();
    X.NewWalletReconciled();
    X.ProcessOrderReconciledIff(x0, p.Order());
    X.ProcessOrderRecomputed(x0, p.Order(), p.Bought());
    EmptyBooks(p.Bought());
  }

  lemma EmptyBooks(c: Currency)
    ensures X.Recomputed(X.NewExchangeState(), c) == 0
  {}

  // ---------- The run ----------

  lemma Stamped(s: State, p: Purchase, addresses: seq<CurrencyAddress>, deposits: seq<T.Transaction>)
    requires SoFar(s, p, addresses, deposits)
    ensures SoFar(s.(lastChanged := 0), p, addresses, deposits)
    ensures Has(s.(lastChanged := 0), p.user, p.Bought()) <==> Has(s, p.user, p.Bought())
  {}

  lemma AddressStep(s: State, p: Purchase)
    requires SoFar(s, p, [], []) && !Has(s, p.user, p.Bought())
    ensures var s' := Advance(s, StepOf(DepositAddress(p.user, BtcAddress(p.address)), None));
      SoFar(s', p, [BtcAddress(p.address)], []) && !Has(s', p.user, p.Bought())
  {
    hide SoFar, DepositAddressAdded, Advance;
    AddressGiven(s, p);
    var after := DepositAddressAdded(s, p.user, BtcAddress(p.address)).value;
    AdvanceIs(s, StepOf(DepositAddress(p.user, BtcAddress(p.address)), None), after);
    Stamped(after, p, [BtcAddress(p.address)], []);
  }

  lemma DepositStep(s: State, p: Purchase)
    requires p.price >= 0 && SoFar(s, p, [BtcAddress(p.address)], []) && !Has(s, p.user, p.Bought())
    ensures var s' := Advance(s, StepOf(UpdateBtcTx(p.Deposit()), Some(p.user)));
      SoFar(s', p, [BtcAddress(p.address)], [T.Btc(p.Deposit())]) && !Has(s', p.user, p.Bought())
  {
    hide SoFar, BtcTxUpdated, Advance;
    Deposited(s, p);
    var after := BtcTxUpdated(s, p.Deposit(), ANY_PICK.(owner := Some(p.user)));
    AdvanceIs(s, StepOf(UpdateBtcTx(p.Deposit()), Some(p.user)), after);
    Stamped(after, p, [BtcAddress(p.address)], [T.Btc(p.Deposit())]);
  }

  lemma EnableStep(s: State, p: Purchase, addresses: seq<CurrencyAddress>, deposits: seq<T.Transaction>)
    requires SoFar(s, p, addresses, deposits) && !Has(s, p.user, p.Bought())
    ensures var s' := Advance(s, StepOf(UpdateTokens(TokenUpdate(p.user, p.token, Enable)), None));
      SoFar(s', p, addresses, deposits) && Has(s', p.user, p.Bought())
  {
    hide SoFar, TokensUpdated, Advance;
    TokenEnabled(s, p, addresses, deposits);
    var after := TokensUpdated(s, TokenUpdate(p.user, p.token, Enable)).value;
    AdvanceIs(s, StepOf(UpdateTokens(TokenUpdate(p.user, p.token, Enable)), None), after);
    Stamped(after, p, addresses, deposits);
  }

  lemma PurchaseSteps(s: State, p: Purchase)
    requires IsUnknown(p) && Has(s, p.user, p.Bought())
    requires SoFar(s, p, [BtcAddress(p.address)], [T.Btc(p.Deposit())])
    ensures var ordered := Advance(s, StepOf(ExchangeRequest(p.Order()), None));
      Advance(ordered, StepOf(ExchangeDecision(p.Confirmation()), None)).exchangeState
        == X.Booked(X.NewExchangeState(), p.Order())
  {
    hide SoFar, OrderRequested, OrderSettled, Advance;
    Ordered(s, p);
    var placed := OrderRequested(s, p.Order()).value;
    AdvanceIs(s, StepOf(ExchangeRequest(p.Order()), None), placed);
    Confirmed(placed.(lastChanged := 0), p);
    var confirmed := OrderSettled(placed.(lastChanged := 0), p.Confirmation()).value;
    AdvanceIs(placed.(lastChanged := 0), StepOf(ExchangeDecision(p.Confirmation()), None), confirmed);
  }

  /** The updates of the purchase, in order. */
  function PurchaseRun(p: Purchase): seq<Step>
    requires p.price >= 0
  {
    [JoinSteps(p.user, p.invite).0, JoinSteps(p.user, p.invite).1,
     StepOf(DepositAddress(p.user, BtcAddress(p.address)), None),
     StepOf(UpdateBtcTx(p.Deposit()), Some(p.user)),
     StepOf(UpdateTokens(TokenUpdate(p.user, p.token, Enable)), None),
     StepOf(ExchangeRequest(p.Order()), None),
     StepOf(ExchangeDecision(p.Confirmation()), None)]
  }

  lemma RunSeven(s: State, steps: seq<Step>)
    requires |steps| == 7
    ensures Run(s, steps) == Advance(Advance(Advance(Advance(Advance(Advance(Advance(s,
      steps[0]), steps[1]), steps[2]), steps[3]), steps[4]), steps[5]), steps[6])
  {
    hide Advance;
    RunThree(s, steps[..3]);
    RunNext(s, steps, 3);
    RunNext(s, steps, 4);
    RunNext(s, steps, 5);
    RunNext(s, steps, 6);
    assert steps[..7] == steps;
  }

  /**
   A new custody that receives these seven updates caches for the token bought the amount it
   paid out, where its books say it owes as much.
   */
  lemma PurchaseBreaksCache(network: Network, now: Time, p: Purchase)
    requires IsUnknown(p)
    ensures var x := Run(NewState(network, now), PurchaseRun(p)).exchangeState;
      && !X.Reconciled(x)
      && X.Cached(x, p.Bought()) == AsI64(p.amount)
      && X.Recomputed(x, p.Bought()) == -(p.amount as int)
  {
    hide Advance, SoFar, JustJoined, NewState, X.Reconciled, X.Booked, X.Recomputed, X.Cached;
    var s0, steps := NewState(network, now), PurchaseRun(p);
    RunSeven(s0, steps);
    JoinRun(network, now, p.user, p.invite);
    var s2 := Advance(Advance(s0, steps[0]), steps[1]);
    Joined(s2, p);
    AddressStep(s2, p);
    var s3 := Advance(s2, steps[2]);
    DepositStep(s3, p);
    var s4 := Advance(s3, steps[3]);
    EnableStep(s4, p, [BtcAddress(p.address)], [T.Btc(p.Deposit())]);
    PurchaseSteps(Advance(s4, steps[4]), p);
    BookedWrong(p);
  }
}
