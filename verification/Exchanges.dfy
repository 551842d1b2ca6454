/**
 Exchange orders and the exchange wallet: its completed orders, its own deposits,
 and the running balance per currency that caches what could be recomputed from them.
 */
module Exchanges {
  import opened Domain
  import opened Transactions
  import opened Collections

  const EXCHANGE_NUMBER_OF_CONFIRMATIONS := 1

  datatype ExchangeStatus = Completed | Rejected | InProgress(confirmed: int, rejected: int)

  datatype ExchangeOrderUpd = ExchangeOrderUpd(
    id: Uuid, user: UserId, currencyFrom: Currency, currencyTo: Currency,
    amountFrom: u64, amountTo: u64, createdAt: string)

  datatype ExchangeDecision = ExchangeDecision(
    user: UserId, id: Uuid, currencyFrom: Currency, currencyTo: Currency,
    amountFrom: u64, amountTo: u64, url: string,
    signature: Signature, nonce: u64, publicKey: PublicKey, decision: DecisionType)
  {
    function Signed(): SignatureData {
      SignatureData(signature, nonce, publicKey)
    }
  }

  datatype ExchangeOrder = ExchangeOrder(
    id: Uuid,
    user: UserId,
    currencyFrom: Currency,
    currencyTo: Currency,
    amountFrom: u64,
    amountTo: u64,
    status: ExchangeStatus,
    createdAt: string,
    confirmations: seq<SignatureData>,
    rejections: seq<SignatureData>
  )
  {
    predicate IsRejected() {
      status.Rejected?
    }

    /** What the order takes from the balance of `currencyFrom`: nothing once rejected. */
    function Outgoing(): int {
      if IsRejected() then 0 else amountFrom
    }

    predicate HasConfirmed(key: PublicKey) {
      exists i :: 0 <= i < |confirmations| && confirmations[i].publicKey == key
    }

    predicate HasRejected(key: PublicKey) {
      exists i :: 0 <= i < |rejections| && rejections[i].publicKey == key
    }

    function ToUpd(): ExchangeOrderUpd {
      ExchangeOrderUpd(id, user, currencyFrom, currencyTo, amountFrom, amountTo, createdAt)
    }
  }

  function NewOrder(r: ExchangeOrderUpd): ExchangeOrder {
    ExchangeOrder(r.id, r.user, r.currencyFrom, r.currencyTo, r.amountFrom, r.amountTo,
                  InProgress(0, 0), r.createdAt, [], [])
  }

  /**
   One operator decision on an order; the flag says whether it just completed it.
   A rejecting signature is stored among the confirmations, as in the source.
   */
  function DecideOrder(order: ExchangeOrder, d: ExchangeDecision): Result<(ExchangeOrder, bool), StateUpdateErr> {
    match order.status
    case Completed => Err(ExchangeAlreadyConfirmed)
    case Rejected => Err(ExchangeAlreadyRejected)
    case InProgress(c, r) =>
      var signed := order.(confirmations := order.confirmations + [d.Signed()]);
      match d.decision
      case Confirm =>
        if order.HasConfirmed(d.publicKey) then Err(ExchangeAlreadyConfirmed)
        else if c + 1 - r >= EXCHANGE_NUMBER_OF_CONFIRMATIONS then Ok((signed.(status := Completed), true))
        else Ok((signed.(status := InProgress(c + 1, r)), false))
      case Reject =>
        if order.HasRejected(d.publicKey) then Err(ExchangeAlreadyRejected)
        else if r + 1 - c >= EXCHANGE_NUMBER_OF_CONFIRMATIONS then Ok((signed.(status := Rejected), false))
        else Ok((signed.(status := InProgress(c, r + 1)), false))
  }

  /** With a threshold of one, an undecided order has no signatures and a decided one has exactly one. */
  ghost predicate OrderOk(order: ExchangeOrder) {
    && order.rejections == []
    && match order.status
       case InProgress(c, r) => c == 0 && r == 0 && order.confirmations == []
       case _ => |order.confirmations| == 1
  }

  /** The first decision on an order settles it, and no later one is accepted. */
  lemma FirstDecisionSettles(order: ExchangeOrder, d: ExchangeDecision)
    requires OrderOk(order)
    ensures DecideOrder(order, d).Ok? <==> order.status.InProgress?
    ensures DecideOrder(order, d).Err? ==>
      DecideOrder(order, d) == Err(
        if order.status.Completed? then ExchangeAlreadyConfirmed else ExchangeAlreadyRejected)
    ensures DecideOrder(order, d).Ok? ==>
      var (after, completed) := DecideOrder(order, d).value;
      && OrderOk(after)
      && after.ToUpd() == order.ToUpd()
      && after.status == (if d.decision.Confirm? then Completed else Rejected)
      && (completed <==> d.decision.Confirm?)
      && after.confirmations == [SignatureData(d.signature, d.nonce, d.publicKey)]
  {}

  // ---------- The exchange wallet as a value ----------

  datatype ExchangeState = ExchangeState(
    exchanges: map<Uuid, ExchangeOrderUpd>,
    addresses: map<Currency, CurrencyAddress>,
    deposits: seq<Transaction>,
    balances: map<Currency, i64>
  )

  function NewExchangeState(): ExchangeState {
    ExchangeState(map[], map[], [], map c | c in SUPPORTED :: 0)
  }

  /** `entry(c).and_modify(|v| *v += delta).or_insert(initial)` */
  function Adjust(balances: map<Currency, i64>, c: Currency, delta: int, initial: int): map<Currency, i64> {
    balances[c := if c in balances then AsI64(balances[c] + delta) else AsI64(initial)]
  }

  function Booked(x: ExchangeState, o: ExchangeOrderUpd): ExchangeState {
    var balances := Adjust(x.balances, o.currencyFrom, AsI64(o.amountFrom), o.amountFrom);
    x.(exchanges := x.exchanges[o.id := o],
       balances := Adjust(balances, o.currencyTo, -(AsI64(o.amountTo) as int), o.amountTo))
  }

  function Credited(x: ExchangeState, tx: BtcTransaction): ExchangeState {
    if tx.amount < 0 then x
    else if Lookup(x.deposits, tx.Key()).Some? then x.(deposits := Upsert(x.deposits, tx))
    else x.(deposits := Upsert(x.deposits, tx), balances := Adjust(x.balances, BTC, tx.amount, tx.amount))
  }

  function Uncredited(x: ExchangeState, c: TxCancel): ExchangeState {
    if Lookup(x.deposits, c.Key()).None? then x
    else x.(deposits := Remove(x.deposits, c.Key()),
            balances := Adjust(x.balances, BTC, -(AsI64(c.amount) as int), -(AsI64(c.amount) as int)))
  }

  // ---------- The running balance against its recomputation ----------

  /** What an order pays into the wallet's holding of `c`, and what it pays out of it. */
  function PaidInOf(c: Currency): ExchangeOrderUpd -> int {
    (o: ExchangeOrderUpd) => if o.currencyFrom == c then o.amountFrom else 0
  }

  function PaidOutOf(c: Currency): ExchangeOrderUpd -> int {
    (o: ExchangeOrderUpd) => if o.currencyTo == c then o.amountTo else 0
  }

  /** What the wallet holds in `c`, recomputed from its deposits and its completed orders. */
  ghost function Recomputed(x: ExchangeState, c: Currency): int {
    (if c == BTC then AmountSum(x.deposits) else 0) + Sum(x.exchanges, PaidInOf(c)) - Sum(x.exchanges, PaidOutOf(c))
  }

  function Cached(x: ExchangeState, c: Currency): int {
    if c in x.balances then x.balances[c] else 0
  }

  /** The cached balances are the recomputed ones, in every currency; deposits are one entry per outpoint. */
  ghost predicate Reconciled(x: ExchangeState) {
    && (forall c :: Cached(x, c) == AsI64(Recomputed(x, c)))
    && Distinct(x.deposits)
    && (forall t :: t in x.deposits ==> t.Btc?)
  }

  lemma NewWalletReconciled()
    ensures Reconciled(NewExchangeState())
  {}

  lemma ProcessOrderRecomputed(x: ExchangeState, o: ExchangeOrderUpd, c: Currency)
    requires o.id !in x.exchanges
    ensures Recomputed(Booked(x, o), c) == Recomputed(x, c) + PaidInOf(c)(o) - PaidOutOf(c)(o)
  {
    SumUpdate(x.exchanges, o.id, o, PaidInOf(c));
    SumUpdate(x.exchanges, o.id, o, PaidOutOf(c));
  }

  /** Adding to a cached balance, or starting one, keeps the cache right. */
  lemma AddToCache(known: bool, cached: int, net: int, amount: int)
    requires cached == AsI64(net) && (known || cached == 0)
    ensures (if known then AsI64(cached + AsI64(amount)) else AsI64(amount)) == AsI64(net + amount)
    ensures (if known then AsI64(cached + amount) else AsI64(amount)) == AsI64(net + amount)
  {
    AddBothWrapped(net, amount);
    AddWrapped(net, amount);
  }

  /** The first half of booking an order. */
  lemma PayIn(x: ExchangeState, o: ExchangeOrderUpd, c: Currency)
    requires Reconciled(x)
    ensures var middle := Adjust(x.balances, o.currencyFrom, AsI64(o.amountFrom), o.amountFrom);
      (if c in middle then middle[c] else 0) == AsI64(Recomputed(x, c) + PaidInOf(c)(o))
  {
    var net, cached := Recomputed(x, c), Cached(x, c);
    assert cached == AsI64(net);
    AddToCache(c in x.balances, cached, net, o.amountFrom);
  }

  /** Booking an order is right in every currency but, perhaps, the one paid out. */
  lemma BookedElsewhere(x: ExchangeState, o: ExchangeOrderUpd, c: Currency)
    requires Reconciled(x) && o.id !in x.exchanges && c != o.currencyTo
    ensures var y := Booked(x, o); Cached(y, c) == AsI64(Recomputed(y, c))
  {
    ProcessOrderRecomputed(x, o, c);
    PayIn(x, o, c);
  }

  /** The second half of booking an order, on the currency paid out. */
  lemma BookedPayout(net: int, known: bool, cached: int, amount: u64)
    requires cached == AsI64(net) && (known || cached == 0)
    ensures (if known then AsI64(cached + -(AsI64(amount) as int)) else AsI64(amount)) == AsI64(net - amount)
      <==> known || amount == 0 || amount == TWO_TO_THE_63
  {
    AddWrapped(net, -(AsI64(amount) as int));
    SubtractWrapped(net, amount);
    if !known {
      AddWrapped(net, -(amount as int));
      WrapEqualIff(amount, -(amount as int));
      TwiceIsMultiple(amount);
    }
  }

  lemma TwiceIsMultiple(amount: u64)
    ensures (amount + amount) % TWO_TO_THE_64 == 0 <==> amount == 0 || amount == TWO_TO_THE_63
  {}

  /**
   Booking an order keeps the cache right exactly when the currency paid out is already
   a key of `balances` (or is the currency paid in, which the first half of the booking
   inserts). In the remaining branch the payout is inserted with the wrong sign, which
   only the two amounts equal to their own negation modulo 2^64 survive.
   */
  lemma ProcessOrderReconciledIff(x: ExchangeState, o: ExchangeOrderUpd)
    requires Reconciled(x) && o.id !in x.exchanges
    ensures Reconciled(Booked(x, o)) <==>
      o.currencyTo in x.balances || o.currencyTo == o.currencyFrom || o.amountTo == 0 || o.amountTo == TWO_TO_THE_63
  {
    var b, y := o.currencyTo, Booked(x, o);
    forall c | c != b ensures Cached(y, c) == AsI64(Recomputed(y, c)) {
      BookedElsewhere(x, o, c);
    }
    PayoutReconciledIff(x, o);
  }

  lemma PayoutReconciledIff(x: ExchangeState, o: ExchangeOrderUpd)
    requires Reconciled(x) && o.id !in x.exchanges
    ensures var y, b := Booked(x, o), o.currencyTo;
      Cached(y, b) == AsI64(Recomputed(y, b))
      <==> b in x.balances || b == o.currencyFrom || o.amountTo == 0 || o.amountTo == TWO_TO_THE_63
  {
    var b := o.currencyTo;
    var middle := Adjust(x.balances, o.currencyFrom, AsI64(o.amountFrom), o.amountFrom);
    PayIn(x, o, b);
    ProcessOrderRecomputed(x, o, b);
    BookedPayout(Recomputed(x, b) + PaidInOf(b)(o), b in middle, if b in middle then middle[b] else 0, o.amountTo);
  }

  /** The cache of a wallet whose Bitcoin deposits and Bitcoin balance alone changed. */
  lemma OnlyBtcChanged(x: ExchangeState, y: ExchangeState)
    requires Reconciled(x)
    requires y.exchanges == x.exchanges && y.balances.Keys <= x.balances.Keys + {BTC}
    requires forall c :: c in x.balances && c != BTC ==> c in y.balances && y.balances[c] == x.balances[c]
    requires Distinct(y.deposits) && forall t :: t in y.deposits ==> t.Btc?
    ensures Recomputed(y, BTC) == Recomputed(x, BTC) - AmountSum(x.deposits) + AmountSum(y.deposits)
    ensures Reconciled(y) <==> Cached(y, BTC) == AsI64(Recomputed(y, BTC))
  {
    forall c | c != BTC ensures Cached(y, c) == AsI64(Recomputed(y, c)) {
      assert Cached(x, c) == AsI64(Recomputed(x, c));
    }
  }

  /** The arithmetic of a cache that is not adjusted, and of one adjusted by the wrong amount. */
  lemma CacheStaysIff(net: int, stored: i64, reported: i64)
    ensures AsI64(net) == AsI64(net - stored + reported) <==> stored == reported
    ensures AsI64(AsI64(net) - reported) == AsI64(net - stored) <==> stored == reported
  {
    WrapEqualIff(net, net - stored + reported);
    AddWrapped(net, -(reported as int));
    WrapEqualIff(net - reported, net - stored);
    SmallMultiple((stored as int) - reported);
  }

  lemma CacheAfterDeposit(net: int, stored: Option<int>, reported: i64)
    requires stored.Some? ==> -TWO_TO_THE_63 <= stored.value < TWO_TO_THE_63
    ensures (if stored.Some? then AsI64(net) else AsI64(AsI64(net) + reported))
      == AsI64(net - stored.GetOr(0) + reported)
      <==> stored.None? || stored.value == reported
  {
    if stored.Some? {
      CacheStaysIff(net, stored.value, reported);
    } else {
      AddWrapped(net, reported);
    }
  }

  /** What a report leaves in the Bitcoin cache: nothing new if the outpoint is known. */
  lemma CreditedCache(x: ExchangeState, tx: BtcTransaction)
    requires tx.amount >= 0
    ensures Cached(Credited(x, tx), BTC)
      == if Lookup(x.deposits, tx.Key()).Some? then Cached(x, BTC) else AsI64(Cached(x, BTC) + tx.amount)
  {}

  /** How a report moves the sum of the deposits, against how it moves the cache. */
  lemma DepositReportIff(deposits: seq<Transaction>, tx: BtcTransaction, net: int, cached: int, after: int)
    requires Distinct(deposits) && tx.amount >= 0
    requires cached == if Lookup(deposits, tx.Key()).Some? then AsI64(net) else AsI64(AsI64(net) + tx.amount)
    requires after == net - AmountSum(deposits) + AmountSum(Upsert(deposits, tx))
    ensures var known := Lookup(deposits, tx.Key());
      cached == AsI64(after) <==> known.None? || known.value.amount == tx.amount
  {
    var known := Lookup(deposits, tx.Key());
    var stored := if known.Some? then Some(known.value.amount as int) else None;
    UpsertAmount(deposits, tx);
    assert after == net - stored.GetOr(0) + tx.amount;
    CacheAfterDeposit(net, stored, tx.amount);
  }

  /** A report is judged by the Bitcoin cache alone. */
  lemma CreditedReconciled(x: ExchangeState, tx: BtcTransaction)
    requires Reconciled(x) && tx.amount >= 0
    ensures var y := Credited(x, tx);
      && Recomputed(y, BTC) == Recomputed(x, BTC) - AmountSum(x.deposits) + AmountSum(Upsert(x.deposits, tx))
      && (Reconciled(y) <==> Cached(y, BTC) == AsI64(Recomputed(y, BTC)))
  {
    UpsertAmount(x.deposits, tx);
    EditMembers(x.deposits, tx, tx.Key());
    OnlyBtcChanged(x, Credited(x, tx));
  }

  /** Re-reporting a deposit leaves the cache alone, so the cache stays right exactly when the amount did not change. */
  lemma IncomingReconciledIff(x: ExchangeState, tx: BtcTransaction)
    requires Reconciled(x)
    ensures var known := Lookup(x.deposits, tx.Key());
      Reconciled(Credited(x, tx)) <==> tx.amount < 0 || known.None? || known.value.amount == tx.amount
  {
    if tx.amount >= 0 {
      var y := Credited(x, tx);
      var net, cached, after := Recomputed(x, BTC), Cached(y, BTC), Recomputed(y, BTC);
      assert Cached(x, BTC) == AsI64(net);
      CreditedReconciled(x, tx);
      CreditedCache(x, tx);
      DepositReportIff(x.deposits, tx, net, cached, after);
    }
  }

  lemma SmallMultiple(d: int)
    requires -TWO_TO_THE_64 < d < TWO_TO_THE_64
    ensures d % TWO_TO_THE_64 == 0 <==> d == 0
  {}

  /** What a cancel of a stored deposit leaves in the Bitcoin cache. */
  lemma UncreditedCache(x: ExchangeState, cancel: TxCancel)
    requires Lookup(x.deposits, cancel.Key()).Some?
    ensures Cached(Uncredited(x, cancel), BTC) == AsI64(Cached(x, BTC) - AsI64(cancel.amount))
  {}

  /** A cancel is judged by the Bitcoin cache alone. */
  lemma UncreditedReconciled(x: ExchangeState, cancel: TxCancel)
    requires Reconciled(x) && Lookup(x.deposits, cancel.Key()).Some?
    ensures var y, stored := Uncredited(x, cancel), Lookup(x.deposits, cancel.Key()).value;
      && Recomputed(y, BTC) == Recomputed(x, BTC) - stored.amount
      && (Reconciled(y) <==> Cached(y, BTC) == AsI64(Recomputed(y, BTC)))
  {
    RemoveAmount(x.deposits, cancel.Key());
    EditMembers(x.deposits, Lookup(x.deposits, cancel.Key()).value, cancel.Key());
    OnlyBtcChanged(x, Uncredited(x, cancel));
  }

  /** A cancel subtracts its own amount, so the cache stays right exactly when that is the stored deposit's amount. */
  lemma CancelReconciledIff(x: ExchangeState, cancel: TxCancel)
    requires Reconciled(x)
    ensures var known := Lookup(x.deposits, cancel.Key());
      Reconciled(Uncredited(x, cancel)) <==> known.None? || known.value.amount == AsI64(cancel.amount)
  {
    var known := Lookup(x.deposits, cancel.Key());
    if known.Some? {
      var net, y := Recomputed(x, BTC), Uncredited(x, cancel);
      assert Cached(x, BTC) == AsI64(net);
      UncreditedReconciled(x, cancel);
      UncreditedCache(x, cancel);
      CacheStaysIff(net, known.value.amount, AsI64(cancel.amount));
    }
  }

  // ---------- The exchange wallet as the ledger updates it ----------

  class ExchangeWallet {
    var exchanges: map<Uuid, ExchangeOrderUpd>
    var addresses: map<Currency, CurrencyAddress>
    var deposits: seq<Transaction>
    var balances: map<Currency, i64>

    ghost function View(): ExchangeState
      reads this
    {
      ExchangeState(exchanges, addresses, deposits, balances)
    }

    constructor (x: ExchangeState)
      ensures View() == x
    {
      exchanges, addresses, deposits, balances := x.exchanges, x.addresses, x.deposits, x.balances;
    }

    method ProcessOrder(order: ExchangeOrderUpd)
      modifies this
      ensures View() == Booked(old(View()), order)
    {
      exchanges := exchanges[order.id := order];
      if order.currencyFrom in balances {
        balances := balances[order.currencyFrom := AsI64(balances[order.currencyFrom] + AsI64(order.amountFrom))];
      } else {
        balances := balances[order.currencyFrom := AsI64(order.amountFrom)];
      }
      if order.currencyTo in balances {
        balances := balances[order.currencyTo := AsI64(balances[order.currencyTo] - AsI64(order.amountTo))];
      } else {
        balances := balances[order.currencyTo := AsI64(order.amountTo)];
      }
    }

    method ProcessIncomingBtcTx(tx: BtcTransaction)
      modifies this
      ensures View() == Credited(old(View()), tx)
    {
      if tx.amount >= 0 {
        for i := 0 to |deposits|
          invariant View() == old(View())
          invariant forall j :: 0 <= j < i ==> !deposits[j].IsAt(tx.Key())
        {
          if deposits[i].Btc? && deposits[i].btc.Key() == tx.Key() {
            PositionIs(deposits, tx.Key(), i);
            deposits := deposits[i := Btc(tx)];
            return;
          }
        }
        PositionIs(deposits, tx.Key(), |deposits|);
        balances := balances[BTC := if BTC in balances then AsI64(balances[BTC] + tx.amount) else tx.amount];
        deposits := deposits + [Btc(tx)];
      }
    }

    method CancelBtcTx(canceled: TxCancel)
      modifies this
      ensures View() == Uncredited(old(View()), canceled)
    {
      var removeAt := None;
      for i := 0 to |deposits|
        invariant View() == old(View())
        invariant removeAt == None
        invariant forall j :: 0 <= j < i ==> !deposits[j].IsAt(canceled.Key())
      {
        if deposits[i].Btc? && deposits[i].btc.Key() == canceled.Key() {
          removeAt := Some(i);
          break;
        }
      }
      PositionIs(deposits, canceled.Key(), removeAt.GetOr(|deposits|));
      if removeAt.Some? {
        var i := removeAt.value;
        deposits := deposits[..i] + deposits[i + 1..];
        var taken := AsI64(canceled.amount) as int;
        balances := balances[BTC := if BTC in balances then AsI64(balances[BTC] - taken) else AsI64(-taken)];
      }
    }

    method SetAddress(address: CurrencyAddress)
      modifies this`addresses
      ensures View() == old(View()).(addresses := old(addresses)[address.Currency() := address])
    {
      addresses := addresses[address.Currency() := address];
    }
  }
}
