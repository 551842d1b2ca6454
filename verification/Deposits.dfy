/**
 Deposits on the ledger: what a reported transaction is worth to its owner, what a cancel
 takes back, and, over whole runs, that a user's deposits are what the reports about that
 user's addresses add up to.
 */
module Deposits {
  import opened Domain
  import opened Accounts
  import opened Updates
  import opened StateMachine
  import opened Invariants
  import opened Runs
  import opened Requests
  import opened Frames
  import T = Transactions
  import P = Pipeline
  import W = Withdrawals

  // ---------- What a transaction is worth ----------

  /** On the balance a deposit counts once it is confirmed, or while nothing conflicts with it. */
  function Worth(tx: T.BtcTransaction): int {
    if tx.confirmations > 0 || tx.conflicts == [] then tx.amount else 0
  }

  /** On the finalized balance it counts from four confirmations on. */
  function FinalWorth(tx: T.BtcTransaction): int {
    if tx.confirmations >= 4 then tx.amount else 0
  }

  lemma SumsAppend(txs: seq<T.Transaction>, t: T.Transaction)
    ensures T.CountedSum(txs + [t]) == T.CountedSum(txs) + t.Counted()
    ensures T.SettledSum(txs + [t]) == T.SettledSum(txs) + t.Settled()
  {
    assert (txs + [t])[..|txs|] == txs;
  }

  /** A new Bitcoin deposit adds what it is worth; that is its amount exactly under the stated conditions. */
  lemma BtcDepositAdds(info: UserCurrencyInfo, tx: T.BtcTransaction)
    ensures var after := info.(transactions := info.transactions + [T.Btc(tx)]);
      && Net(after) == Net(info) + Worth(tx) && SettledNet(after) == SettledNet(info) + FinalWorth(tx)
      && (Net(after) == Net(info) + tx.amount <==> tx.confirmations > 0 || tx.conflicts == [] || tx.amount == 0)
      && (SettledNet(after) == SettledNet(info) + tx.amount <==> tx.confirmations >= 4 || tx.amount == 0)
  {
    SumsAppend(info.transactions, T.Btc(tx));
  }

  /** An Ethereum deposit counts unless its confirmations are negative, and is final from four on. */
  lemma EthDepositAdds(info: UserCurrencyInfo, tx: T.EthTransaction)
    ensures var after := info.(transactions := info.transactions + [T.Eth(tx)]);
      && (Net(after) == Net(info) + tx.amount <==> tx.confirmations >= 0 || tx.amount == 0)
      && (tx.confirmations < 0 ==> Net(after) == Net(info))
      && (SettledNet(after) == SettledNet(info) + tx.amount <==> tx.confirmations >= 4 || tx.amount == 0)
      && (tx.confirmations < 4 ==> SettledNet(after) == SettledNet(info))
  {
    SumsAppend(info.transactions, T.Eth(tx));
  }

  function WorthAt(txs: seq<T.Transaction>, o: T.Outpoint): int {
    var known := T.Lookup(txs, o);
    if known.Some? then Worth(known.value) else 0
  }

  /** A report of a deposit, new or not, exchanges what was at its outpoint for what it is worth now. */
  lemma ReportMoves(info: UserCurrencyInfo, tx: T.BtcTransaction)
    requires tx.amount >= 0
    ensures var after := info.(transactions := T.Upsert(info.transactions, tx));
      Net(after) == Net(info) - WorthAt(info.transactions, tx.Key()) + Worth(tx)
  {
    hide Net, Worth;
    ReportCounted(info.transactions, tx);
    NetFollows(info, T.Upsert(info.transactions, tx));
  }

  /** Another list of transactions moves the balance by the difference of what the two count for. */
  lemma NetFollows(info: UserCurrencyInfo, txs: seq<T.Transaction>)
    ensures Net(info.(transactions := txs)) == Net(info) - T.CountedSum(info.transactions) + T.CountedSum(txs)
  {}

  lemma BtcCounted(tx: T.BtcTransaction)
    ensures T.Btc(tx).Counted() == Worth(tx)
  {}

  lemma ReportCounted(txs: seq<T.Transaction>, tx: T.BtcTransaction)
    requires tx.amount >= 0
    ensures T.CountedSum(T.Upsert(txs, tx)) == T.CountedSum(txs) - WorthAt(txs, tx.Key()) + Worth(tx)
  {
    hide T.CountedSum, Worth;
    var i := T.Position(txs, tx.Key());
    BtcCounted(tx);
    if i < |txs| {
      BtcCounted(txs[i].btc);
      T.SumsReplaced(txs, i, T.Btc(tx));
    } else {
      SumsAppend(txs, T.Btc(tx));
    }
  }

  /** A cancel takes back what was at its outpoint. */
  lemma CancelMoves(info: UserCurrencyInfo, o: T.Outpoint)
    ensures var after := info.(transactions := T.Remove(info.transactions, o));
      Net(after) == Net(info) - WorthAt(info.transactions, o)
  {
    hide Net, Worth, T.CountedSum;
    NetFollows(info, T.Remove(info.transactions, o));
    var known := T.Lookup(info.transactions, o);
    if known.Some? {
      BtcCounted(known.value);
      T.RemoveCounted(info.transactions, o);
    }
  }

  // ---------- Whose deposit it is ----------

  /** The Bitcoin transactions of a user; none before the user is there. */
  ghost function TxsOf(s: State, u: UserId): seq<T.Transaction> {
    if Has(s, u, BTC) then Account(s, u, BTC).transactions else []
  }

  /** The address was given to the user's Bitcoin account. */
  ghost predicate Holds(s: State, u: UserId, address: string) {
    Has(s, u, BTC) && BtcAddress(address) in Account(s, u, BTC).depositInfo
  }

  /** The address is the exchange wallet's own. */
  ghost predicate WalletHolds(s: State, address: string) {
    BTC in s.exchangeState.addresses && s.exchangeState.addresses[BTC].Text() == address
  }

  /** Nobody but `u` has the address. */
  ghost predicate SoleHolder(s: State, u: UserId, address: string) {
    Holds(s, u, address) && forall v :: Holds(s, v, address) ==> v == u
  }

  lemma HoldsIsOwns(s: State, u: UserId, address: string)
    ensures OwnsAddress(s, u, BtcAddress(address)) <==> Holds(s, u, address)
    ensures IsExchangeAddress(s, BtcAddress(address)) <==> WalletHolds(s, address)
  {}

  /** The search finds the only holder. */
  lemma HolderFound(s: State, u: UserId, address: string, nd: Nondet)
    requires SoleHolder(s, u, address) && AdmissibleOwner(s, BtcAddress(address), nd)
    ensures FindUserAddress(s, BtcAddress(address), nd) == Some(u)
  {
    HoldsIsOwns(s, u, address);
    if nd.owner.Some? {
      HoldsIsOwns(s, nd.owner.value, address);
    }
  }

  /** Everything but the transactions of one Bitcoin account is as it was. */
  ghost predicate OnlyTransactionsOf(s: State, s': State, u: UserId) {
    && Has(s, u, BTC) && Has(s', u, BTC)
    && (forall v, c :: Has(s', v, c) <==> Has(s, v, c))
    && (forall v, c :: Has(s, v, c) && (v != u || c != BTC) ==> Account(s', v, c) == Account(s, v, c))
    && Account(s', u, BTC) == Account(s, u, BTC).(transactions := Account(s', u, BTC).transactions)
    && s' == s.(users := s'.users)
  }

  /**
   A reported deposit is credited to the holder of its address and nobody else: it is what is
   now at its outpoint, the other outpoints are as they were, and the balance moves by its worth.
   */
  lemma DepositCredited(s: State, tx: T.BtcTransaction, u: UserId, nd: Nondet)
    requires StateOk(s) && SoleHolder(s, u, tx.address) && !WalletHolds(s, tx.address) && tx.amount >= 0
    requires Admissible(s, UpdateBtcTx(tx), nd)
    ensures var s' := BtcTxUpdated(s, tx, nd);
      && OnlyTransactionsOf(s, s', u)
      && T.Lookup(TxsOf(s', u), tx.Key()) == Some(tx)
      && (forall o :: o != tx.Key() ==> T.Lookup(TxsOf(s', u), o) == T.Lookup(TxsOf(s, u), o))
      && T.EthPart(TxsOf(s', u)) == T.EthPart(TxsOf(s, u))
      && Net(Account(s', u, BTC)) == Net(Account(s, u, BTC)) - WorthAt(TxsOf(s, u), tx.Key()) + Worth(tx)
  {
    hide T.Upsert, T.Lookup, Worth, OnlyTransactionsOf, StateOk, SoleHolder;
    SoleHolderHas(s, u, tx.address);
    var info := Account(s, u, BTC);
    HoldsIsOwns(s, u, tx.address);
    HolderFound(s, u, tx.address, nd);
    ReportMoves(info, tx);
    UpsertedList(info.transactions, tx);
    SetTransactions(s, u, T.Upsert(info.transactions, tx));
  }

  lemma SoleHolderHas(s: State, u: UserId, address: string)
    requires SoleHolder(s, u, address)
    ensures Has(s, u, BTC)
  {}

  lemma UpsertedList(txs: seq<T.Transaction>, tx: T.BtcTransaction)
    requires tx.amount >= 0
    ensures T.Lookup(T.Upsert(txs, tx), tx.Key()) == Some(tx)
    ensures forall o :: o != tx.Key() ==> T.Lookup(T.Upsert(txs, tx), o) == T.Lookup(txs, o)
    ensures T.EthPart(T.Upsert(txs, tx)) == T.EthPart(txs)
  {
    hide T.Upsert, T.Lookup;
    T.UpsertKeepsEth(txs, tx);
    T.UpsertRefines(txs, tx, tx.Key());
    forall o | o != tx.Key() ensures T.Lookup(T.Upsert(txs, tx), o) == T.Lookup(txs, o) {
      T.UpsertRefines(txs, tx, o);
    }
  }

  lemma RemovedList(txs: seq<T.Transaction>, gone: T.Outpoint)
    requires T.Distinct(txs)
    ensures T.Lookup(T.Remove(txs, gone), gone) == None
    ensures forall o :: o != gone ==> T.Lookup(T.Remove(txs, gone), o) == T.Lookup(txs, o)
    ensures T.EthPart(T.Remove(txs, gone)) == T.EthPart(txs)
  {
    hide T.Remove, T.Lookup;
    T.RemoveKeepsEth(txs, gone);
    T.RemoveRefines(txs, gone, gone);
    forall o | o != gone ensures T.Lookup(T.Remove(txs, gone), o) == T.Lookup(txs, o) {
      T.RemoveRefines(txs, gone, o);
    }
  }

  /** Writing a list of transactions back. */
  lemma SetTransactions(s: State, u: UserId, txs: seq<T.Transaction>)
    requires Has(s, u, BTC)
    ensures var s' := SetAccount(s, u, BTC, Account(s, u, BTC).(transactions := txs));
      OnlyTransactionsOf(s, s', u) && TxsOf(s', u) == txs
  {}

  /** The first half of a cancel: the deposit is gone from its holder's list, and its worth from the balance. */
  lemma DepositTakenBack(s: State, cancel: T.TxCancel, u: UserId, nd: Nondet)
    requires StateOk(s) && SoleHolder(s, u, cancel.address) && !WalletHolds(s, cancel.address)
    requires Admissible(s, CancelBtcTx(cancel), nd)
    ensures var s' := DepositDropped(s, cancel, nd);
      && OnlyTransactionsOf(s, s', u)
      && T.Lookup(TxsOf(s', u), cancel.Key()) == None
      && (forall o :: o != cancel.Key() ==> T.Lookup(TxsOf(s', u), o) == T.Lookup(TxsOf(s, u), o))
      && T.EthPart(TxsOf(s', u)) == T.EthPart(TxsOf(s, u))
      && Net(Account(s', u, BTC)) == Net(Account(s, u, BTC)) - WorthAt(TxsOf(s, u), cancel.Key())
  {
    hide T.Remove, T.Lookup, Worth, OnlyTransactionsOf, StateOk, SoleHolder;
    SoleHolderHas(s, u, cancel.address);
    var info := Account(s, u, BTC);
    DistinctTransactions(s, u);
    HoldsIsOwns(s, u, cancel.address);
    HolderFound(s, u, cancel.address, nd);
    CancelMoves(info, cancel.Key());
    RemovedList(info.transactions, cancel.Key());
    SetTransactions(s, u, T.Remove(info.transactions, cancel.Key()));
  }

  lemma DistinctTransactions(s: State, u: UserId)
    requires StateOk(s) && Has(s, u, BTC)
    ensures T.Distinct(Account(s, u, BTC).transactions)
  {
    assert UserOk(u, s.users[u]) && AccountOk(u, BTC, Account(s, u, BTC));
  }

  /** The second half of a cancel leaves every transaction where it is. */
  lemma RevertKeepsTransactions(s: State, cancel: T.TxCancel, nd: Nondet)
    ensures var s' := WithdrawalReverted(s, cancel, nd);
      && (forall v, c :: Has(s', v, c) <==> Has(s, v, c))
      && (forall v, c :: Has(s, v, c) ==> Account(s', v, c).transactions == Account(s, v, c).transactions)
  {
    hide StatusSet;
    var id := FindWithdrawal(s, BtcTxId(cancel.txid), nd);
    if id.Some? {
      StatusSetExactly(s, id.value, W.NodeRejected("Tx canceled"));
    }
  }

  /**
   An accepted cancel at an address of one user clears its own outpoint on that user's account,
   and leaves every other outpoint and every other account's transactions alone.
   */
  lemma CancelDropsDeposit(s: State, step: Step, u: UserId)
    requires step.update.body.CancelBtcTx? && StateOk(s)
    requires var cancel := step.update.body.cancel;
      SoleHolder(s, u, cancel.address) && !WalletHolds(s, cancel.address)
      && Admissible(s, step.update.body, step.nd)
    ensures Apply(s, step.update, step.nd).Ok?
    ensures var s', cancel := Advance(s, step), step.update.body.cancel;
      var key := T.Outpoint(cancel.txid, cancel.vout);
      && Has(s', u, BTC) && T.Lookup(TxsOf(s', u), key) == None
      && (forall o :: o != key ==> T.Lookup(TxsOf(s', u), o) == T.Lookup(TxsOf(s, u), o))
      && (forall v, c :: Has(s, v, c) ==> Has(s', v, c))
      && (forall v, c :: Has(s, v, c) && (v != u || c != BTC) ==>
            Account(s', v, c).transactions == Account(s, v, c).transactions)
  {
    hide DepositDropped, WithdrawalReverted, T.Lookup, StateOk;
    var cancel := step.update.body.cancel;
    HoldsIsOwns(s, u, cancel.address);
    DepositTakenBack(s, cancel, u, step.nd);
    RevertKeepsTransactions(DepositDropped(s, cancel, step.nd), cancel, step.nd);
  }

  // ---------- The reports of a run ----------

  /** What a step reports about the user's deposits. */
  ghost function ReportFor(s: State, body: UpdateBody, u: UserId): Option<T.DepositEvent> {
    match body
    case UpdateBtcTx(tx) => if Holds(s, u, tx.address) && !WalletHolds(s, tx.address) then Some(T.Seen(tx)) else None
    case CancelBtcTx(c) => if Holds(s, u, c.address) && !WalletHolds(s, c.address) then Some(T.Dropped(c)) else None
    case _ => None
  }

  /** The reports and cancels of a run at the addresses the user holds at the time. */
  ghost function ReportsFor(s: State, steps: seq<Step>, u: UserId): seq<T.DepositEvent> {
    if steps == [] then []
    else
      var init, last := steps[..|steps| - 1], steps[|steps| - 1];
      match ReportFor(Run(s, init), last.update.body, u)
      case Some(e) => ReportsFor(s, init, u) + [e]
      case None => ReportsFor(s, init, u)
  }

  /** The reported address has one holder at most, and the search found what it could. */
  ghost predicate ClearlyAddressed(s: State, step: Step) {
    && Admissible(s, step.update.body, step.nd)
    && match step.update.body
       case UpdateBtcTx(tx) => forall u, v :: Holds(s, u, tx.address) && Holds(s, v, tx.address) ==> u == v
       case CancelBtcTx(c) => forall u, v :: Holds(s, u, c.address) && Holds(s, v, c.address) ==> u == v
       case _ => true
  }

  ghost predicate ClearlyAddressedRun(s: State, steps: seq<Step>) {
    forall i :: 0 <= i < |steps| ==> ClearlyAddressed(Run(s, steps[..i]), steps[i])
  }

  lemma ClearRunPrefix(s: State, steps: seq<Step>)
    requires steps != [] && ClearlyAddressedRun(s, steps)
    ensures ClearlyAddressedRun(s, steps[..|steps| - 1])
    ensures ClearlyAddressed(Run(s, steps[..|steps| - 1]), steps[|steps| - 1])
  {
    hide ClearlyAddressed, Run;
    var init := steps[..|steps| - 1];
    forall i | 0 <= i < |init| ensures ClearlyAddressed(Run(s, init[..i]), init[i]) {
      assert init[..i] == steps[..i] && init[i] == steps[i];
    }
  }

  /** Updates that are no reports leave everybody's transactions alone. */
  lemma OthersKeepTransactions(s: State, step: Step, u: UserId)
    requires SnapshotIsCurrent(s, step.update.body) && !step.update.body.UpdateBtcTx? && !step.update.body.CancelBtcTx?
    ensures TxsOf(Advance(s, step), u) == TxsOf(s, u)
  {
    hide Apply;
    if Apply(s, step.update, step.nd).Ok? {
      StepFrame(s, step.update, step.nd);
      var s' := Advance(s, step);
      assert Has(s, u, BTC) ==> Has(s', u, BTC);
    }
  }

  lemma StampKeepsTransactions(s: State, t: Time, u: UserId)
    ensures TxsOf(s.(lastChanged := t), u) == TxsOf(s, u)
  {}

  /** A report of a deposit changes its holder's list, and nobody else's. */
  lemma UpdateRecords(s: State, tx: T.BtcTransaction, nd: Nondet, u: UserId)
    requires Admissible(s, UpdateBtcTx(tx), nd)
    requires forall v, w :: Holds(s, v, tx.address) && Holds(s, w, tx.address) ==> v == w
    ensures TxsOf(BtcTxUpdated(s, tx, nd), u)
      == if Holds(s, u, tx.address) && !WalletHolds(s, tx.address) then T.Upsert(TxsOf(s, u), tx) else TxsOf(s, u)
  {
    hide T.Upsert;
    HoldsIsOwns(s, u, tx.address);
    var owner := FindUserAddress(s, BtcAddress(tx.address), nd);
    if owner.Some? {
      HoldsIsOwns(s, owner.value, tx.address);
    }
    if Holds(s, u, tx.address) && !WalletHolds(s, tx.address) {
      HolderFound(s, u, tx.address, nd);
    }
  }

  lemma DropRecords(s: State, c: T.TxCancel, nd: Nondet, u: UserId)
    requires AdmissibleOwner(s, BtcAddress(c.address), nd) && !WalletHolds(s, c.address)
    requires forall v, w :: Holds(s, v, c.address) && Holds(s, w, c.address) ==> v == w
    ensures TxsOf(DepositDropped(s, c, nd), u)
      == if Holds(s, u, c.address) then T.Remove(TxsOf(s, u), c.Key()) else TxsOf(s, u)
  {
    hide T.Remove;
    HoldsIsOwns(s, u, c.address);
    var owner := FindUserAddress(s, BtcAddress(c.address), nd);
    if owner.Some? {
      HoldsIsOwns(s, owner.value, c.address);
    }
    if Holds(s, u, c.address) {
      HolderFound(s, u, c.address, nd);
    }
  }

  lemma CancelRecords(s: State, c: T.TxCancel, nd: Nondet, u: UserId)
    requires Admissible(s, CancelBtcTx(c), nd)
    requires forall v, w :: Holds(s, v, c.address) && Holds(s, w, c.address) ==> v == w
    ensures TxsOf(BtcTxCancelled(s, c, nd), u)
      == if Holds(s, u, c.address) && !WalletHolds(s, c.address) then T.Remove(TxsOf(s, u), c.Key()) else TxsOf(s, u)
  {
    hide T.Remove, DepositDropped, WithdrawalReverted;
    HoldsIsOwns(s, u, c.address);
    if !WalletHolds(s, c.address) {
      DropRecords(s, c, nd, u);
      RevertKeepsTransactions(DepositDropped(s, c, nd), c, nd);
    }
  }

  /** A step records what it reports about the user, and nothing else. */
  lemma StepRecords(s: State, step: Step, u: UserId)
    requires SnapshotIsCurrent(s, step.update.body) && ClearlyAddressed(s, step)
    ensures TxsOf(Advance(s, step), u) ==
      match ReportFor(s, step.update.body, u)
      case Some(e) => T.Record(TxsOf(s, u), e)
      case None => TxsOf(s, u)
  {
    hide T.Upsert, T.Remove, TxsOf, Holds, WalletHolds, BtcTxUpdated, BtcTxCancelled, Admissible;
    match step.update.body {
      case UpdateBtcTx(tx) =>
        UpdateRecords(s, tx, step.nd, u);
        StampKeepsTransactions(BtcTxUpdated(s, tx, step.nd), step.update.created, u);
      case CancelBtcTx(c) =>
        CancelRecords(s, c, step.nd, u);
        StampKeepsTransactions(BtcTxCancelled(s, c, step.nd), step.update.created, u);
      case _ => OthersKeepTransactions(s, step, u);
    }
  }

  /** Over any run a user's Bitcoin transactions are the run's reports about that user, recorded in order. */
  lemma {:induction false} DepositsAreReports(s: State, steps: seq<Step>, u: UserId)
    requires SnapshotsCurrent(s, steps) && ClearlyAddressedRun(s, steps)
    ensures TxsOf(Run(s, steps), u) == T.RecordAll(TxsOf(s, u), ReportsFor(s, steps, u))
    decreases |steps|
  {
    hide TxsOf, Advance, ReportFor, T.Record, SnapshotIsCurrent, ClearlyAddressed;
    if steps != [] {
      var init, last := steps[..|steps| - 1], steps[|steps| - 1];
      SnapshotsCurrentPrefix(s, steps);
      ClearRunPrefix(s, steps);
      DepositsAreReports(s, init, u);
      StepRecords(Run(s, init), last, u);
      if ReportFor(Run(s, init), last.update.body, u).Some? {
        var all := ReportsFor(s, steps, u);
        assert all[..|all| - 1] == ReportsFor(s, init, u);
      }
    }
  }

  /**
   In every reachable state of a new custody each outpoint of a user's deposits holds what the
   last effective report about that user left there, and no outpoint is there twice.
   */
  lemma LastReportWins(network: Network, now: Time, steps: seq<Step>, u: UserId, o: T.Outpoint)
    requires SnapshotsCurrent(NewState(network, now), steps) && ClearlyAddressedRun(NewState(network, now), steps)
    ensures var s0 := NewState(network, now);
      && T.Lookup(TxsOf(Run(s0, steps), u), o) == T.LastAt(None, T.AtOutpoint(ReportsFor(s0, steps, u), o))
      && T.Distinct(TxsOf(Run(s0, steps), u))
  {
    hide Run, SnapshotsCurrent, ClearlyAddressedRun, ReportsFor, T.LastAt, T.AtOutpoint, T.RecordAll, GenesisHash;
    var s0 := NewState(network, now);
    DepositsAreReports(s0, steps, u);
    assert TxsOf(s0, u) == [];
    T.LastEventWins([], ReportsFor(s0, steps, u), o);
  }

  /** Two histories that tell the same story of each outpoint give the user the same deposits and the same sum. */
  lemma ReportOrderIrrelevant(network: Network, now: Time, steps: seq<Step>, others: seq<Step>, u: UserId)
    requires SnapshotsCurrent(NewState(network, now), steps) && ClearlyAddressedRun(NewState(network, now), steps)
    requires SnapshotsCurrent(NewState(network, now), others) && ClearlyAddressedRun(NewState(network, now), others)
    requires forall o :: T.AtOutpoint(ReportsFor(NewState(network, now), steps, u), o)
                      == T.AtOutpoint(ReportsFor(NewState(network, now), others, u), o)
    ensures var a, b := TxsOf(Run(NewState(network, now), steps), u), TxsOf(Run(NewState(network, now), others), u);
      T.SameMap(a, b) && T.CountedSum(a) == T.CountedSum(b)
  {
    hide Run, SnapshotsCurrent, ClearlyAddressedRun, ReportsFor, T.AtOutpoint, T.RecordAll, GenesisHash, T.SameMap;
    var s0 := NewState(network, now);
    DepositsAreReports(s0, steps, u);
    DepositsAreReports(s0, others, u);
    assert TxsOf(s0, u) == [];
    T.ReorderingKeepsBalance([], ReportsFor(s0, steps, u), ReportsFor(s0, others, u));
  }

  // ---------- From the node's list to the balance ----------

  /** An entry of the node's list that says the wallet received something. */
  predicate Received(tx: P.ListedTx, address: string) {
    tx.category.Receive? && tx.address == Some(address) && tx.confirmations >= 0 && tx.amount >= 0
  }

  /** The transaction as the ledger will hold it. */
  predicate IsRecordOf(tx: P.ListedTx, r: T.BtcTransaction) {
    && r.txid == tx.txid && r.vout == tx.vout && tx.address == Some(r.address)
    && r.confirmations == tx.confirmations && r.amount == tx.amount && r.conflicts == tx.conflicts
  }

  /** A received entry is scanned into an update due to the ledger, and what that is sent as records the entry. */
  lemma ReceivedIsSent(tx: P.ListedTx, address: string, e: P.BtcEvent, body: UpdateBody)
    requires Received(tx, address) && P.UpdateOf(tx, e) && P.Reports(e, body)
    ensures P.UpdateDue(tx) && P.Due(e) && body.UpdateBtcTx? && IsRecordOf(tx, body.tx)
  {}

  /** The history of what was scanned only grows. */
  lemma {:induction false} ScannedStays(f: P.Flight, moves: seq<P.Move>, e: P.BtcEvent)
    requires P.Possible(f, moves)
    ensures e in f.scanned ==> e in P.After(f, moves).scanned
    ensures (exists m :: m in moves && m.Scan? && e in m.events) ==> e in P.After(f, moves).scanned
    decreases |moves|
  {
    if moves != [] {
      ScannedStays(P.Moved(f, moves[0]), moves[1..], e);
    }
  }

  /** What is due and was scanned has been applied once nothing is in flight. */
  lemma DueIsApplied(f: P.Flight, e: P.BtcEvent)
    requires P.Delivers(f.scanned, f.applied) && e in f.scanned && P.Due(e)
    ensures exists body :: body in f.applied && P.Reports(e, body)
  {
    hide P.Reports, P.IsBtcTx;
    var i :| 0 <= i < |f.scanned| && f.scanned[i] == e;
    assert P.Due(f.scanned[i]);
    var from, to := P.Positions(f.scanned, P.Due), P.Positions(f.applied, P.IsBtcTx);
    var k :| 0 <= k < |from| && from[k] == i;
    assert f.applied[to[k]] in f.applied;
  }

  /** An entry due an update is among the events scanned. */
  lemma EntryIsScanned(answer: P.ListSince, tx: P.ListedTx)
    requires tx in answer.transactions && P.UpdateDue(tx)
    ensures exists e :: e in P.Scanned(answer) && P.UpdateOf(tx, e)
  {
    P.ScannedOneForOne(answer);
    var i :| 0 <= i < |answer.transactions| && answer.transactions[i] == tx;
    var n, at := |P.Positions(answer.removed, P.CancelDue)|, P.Positions(answer.transactions, P.UpdateDue);
    var k :| 0 <= k < |at| && at[k] == i;
    assert P.Scanned(answer)[n..][k] in P.Scanned(answer);
  }

  /**
   Whatever the interleaving, an entry the node ever listed as received has been applied by the
   ledger, as a record of that entry, once nothing is in flight.
   */
  lemma ReceivedIsApplied(moves: seq<P.Move>, answer: P.ListSince, tx: P.ListedTx, address: string)
    requires P.Possible(P.Flight([], [], [], [], []), moves) && P.Scan(P.Scanned(answer)) in moves
    requires tx in answer.transactions && Received(tx, address)
    requires var f := P.After(P.Flight([], [], [], [], []), moves); f.buffer == [] && f.batch == [] && f.queue == []
    ensures var f := P.After(P.Flight([], [], [], [], []), moves);
      exists body :: body in f.applied && body.UpdateBtcTx? && IsRecordOf(tx, body.tx)
  {
    hide P.Scanned, P.After, P.Delivers;
    var f := P.After(P.Flight([], [], [], [], []), moves);
    EntryIsScanned(answer, tx);
    var e :| e in P.Scanned(answer) && P.UpdateOf(tx, e);
    assert P.Scan(P.Scanned(answer)).Scan? && e in P.Scan(P.Scanned(answer)).events;
    ScannedStays(P.Flight([], [], [], [], []), moves, e);
    P.QuiescentMeansDelivered(moves);
    DueIsApplied(f, e);
    var body :| body in f.applied && P.Reports(e, body);
    ReceivedIsSent(tx, address, e, body);
  }

  /**
   From the node's list to the balance: an entry received at the address of one user is scanned,
   is due to the ledger, and, whatever it is sent as, is credited to that user with its amount.
   The balance rises by exactly the amount if the entry is confirmed or free of conflicts and
   nothing was recorded at its outpoint before.
   */
  lemma ReceivedIsCredited(tx: P.ListedTx, e: P.BtcEvent, body: UpdateBody, s: State, u: UserId, nd: Nondet)
    requires tx.address.Some? && Received(tx, tx.address.value) && P.UpdateOf(tx, e) && P.Reports(e, body)
    requires StateOk(s) && SoleHolder(s, u, tx.address.value) && !WalletHolds(s, tx.address.value)
    requires Admissible(s, body, nd)
    ensures P.UpdateDue(tx) && P.Due(e) && body.UpdateBtcTx?
    ensures var s', key := BtcTxUpdated(s, body.tx, nd), T.Outpoint(tx.txid, tx.vout);
      && OnlyTransactionsOf(s, s', u)
      && T.Lookup(TxsOf(s', u), key).Some? && IsRecordOf(tx, T.Lookup(TxsOf(s', u), key).value)
      && (T.Lookup(TxsOf(s, u), key).None? && (tx.confirmations > 0 || tx.conflicts == [])
          ==> Net(Account(s', u, BTC)) == Net(Account(s, u, BTC)) + tx.amount)
  {
    hide StateOk, SoleHolder, WalletHolds, BtcTxUpdated, Admissible, OnlyTransactionsOf, T.Lookup, TxsOf;
    ReceivedIsSent(tx, tx.address.value, e, body);
    DepositCredited(s, body.tx, u, nd);
    CreditedHas(s, BtcTxUpdated(s, body.tx, nd), u);
  }

  lemma CreditedHas(s: State, s': State, u: UserId)
    requires OnlyTransactionsOf(s, s', u)
    ensures Has(s, u, BTC) && Has(s', u, BTC)
  {}

  /** A reported withdrawal would be recorded with a negative amount, which no list of deposits takes up. */
  lemma WithdrawalNotRecorded(u: T.TxUpdate, txs: seq<T.Transaction>)
    requires u.direction.Withdraw? && 0 < u.amount <= TWO_TO_THE_63
    ensures u.ToTransaction().amount == -(u.amount as int) && T.Upsert(txs, u.ToTransaction()) == txs
  {}

  /** The exchange wallet's own deposits go to it, and to no user. */
  lemma WalletDepositRouted(s: State, tx: T.BtcTransaction, nd: Nondet)
    requires WalletHolds(s, tx.address) && tx.amount >= 0
    ensures var s' := BtcTxUpdated(s, tx, nd);
      && s'.users == s.users
      && T.Lookup(s'.exchangeState.deposits, tx.Key()) == Some(tx)
      && (forall o :: o != tx.Key() ==>
            T.Lookup(s'.exchangeState.deposits, o) == T.Lookup(s.exchangeState.deposits, o))
  {
    hide T.Upsert, T.Lookup;
    HoldsIsOwns(s, "", tx.address);
    T.UpsertRefines(s.exchangeState.deposits, tx, tx.Key());
    forall o | o != tx.Key()
      ensures T.Lookup(T.Upsert(s.exchangeState.deposits, tx), o) == T.Lookup(s.exchangeState.deposits, o)
    {
      T.UpsertRefines(s.exchangeState.deposits, tx, o);
    }
  }
}
