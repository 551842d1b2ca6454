/** Users, their account in each currency, and the balance of an account. */
module Accounts {
  import opened Domain
  import opened Collections
  import opened Transactions
  import W = Withdrawals
  import L = Limits
  import X = Exchanges

  datatype UserCurrencyInfo = UserCurrencyInfo(
    currency: Currency,
    depositInfo: seq<CurrencyAddress>,
    transactions: seq<Transaction>,
    withdrawalRequests: map<Uuid, W.WithdrawalRequest>,
    exchangeRequests: map<Uuid, X.ExchangeOrder>,
    incomingExchangeRequests: map<Uuid, u64>,
    limitInfo: L.LimitInfo
  )
  {
    predicate HasAddress(address: CurrencyAddress) {
      address in depositInfo
    }
  }

  function NewAccount(currency: Currency): UserCurrencyInfo {
    UserCurrencyInfo(currency, [], [], map[], map[], map[], L.DEFAULT_LIMIT)
  }

  datatype SignupAuth = Password(hash: string) | Lightning

  datatype UserConfig = UserConfig(
    language: string, email: Option<string>, phone: Option<string>, tgName: Option<string>)

  datatype UserInfo = UserInfo(
    username: UserId,
    invite: Uuid,
    auth: SignupAuth,
    createdAt: Time,
    currencies: map<Currency, UserCurrencyInfo>,
    limitChangeRequests: map<Currency, L.LimitChangeData>,
    config: UserConfig,
    publicKey: Option<PublicKey>
  )
  {
    predicate HasAddress(address: CurrencyAddress) {
      address.Currency() in currencies && currencies[address.Currency()].HasAddress(address)
    }
  }

  datatype SignupInfo = SignupInfo(username: UserId, invite: Uuid, auth: SignupAuth)

  function NewUser(createdAt: Time, s: SignupInfo): UserInfo {
    UserInfo(s.username, s.invite, s.auth, createdAt,
             map c | c in DEFAULT_CURRENCIES :: NewAccount(c),
             map[], UserConfig("English", None, None, None), None)
  }

  /** `id` belongs to a completed withdrawal of the account whose Bitcoin or Ethereum transaction is `txid`. */
  ghost predicate CompletedBy(info: UserCurrencyInfo, txid: CurrencyTxId, id: Uuid) {
    && txid.Currency() == info.currency
    && exists k :: k in info.withdrawalRequests
         && info.withdrawalRequests[k].id == id
         && info.withdrawalRequests[k].status.Completed?
         && info.withdrawalRequests[k].status.txid == txid
  }

  ghost predicate UserCompletedBy(user: UserInfo, txid: CurrencyTxId, id: Uuid) {
    txid.Currency() in user.currencies && CompletedBy(user.currencies[txid.Currency()], txid, id)
  }

  // ---------- Balances ----------

  function CostOf(): W.WithdrawalRequest -> int {
    (w: W.WithdrawalRequest) => w.Cost()
  }

  function OutgoingOf(): X.ExchangeOrder -> int {
    (o: X.ExchangeOrder) => o.Outgoing()
  }

  function IncomingOf(): u64 -> int {
    (amount: u64) => amount
  }

  /** Everything on the account besides deposits: incoming exchanges, withdrawals with fees, outgoing exchanges. */
  ghost function Movements(info: UserCurrencyInfo): int {
    Sum(info.incomingExchangeRequests, IncomingOf())
    - Sum(info.withdrawalRequests, CostOf())
    - Sum(info.exchangeRequests, OutgoingOf())
  }

  /** The exact, unclamped balance. */
  ghost function Net(info: UserCurrencyInfo): int {
    CountedSum(info.transactions) + Movements(info)
  }

  ghost function SettledNet(info: UserCurrencyInfo): int {
    SettledSum(info.transactions) + Movements(info)
  }

  function Clamped(x: int): u64
    requires x < TWO_TO_THE_63
  {
    if x < 0 then 0 else x
  }

  /** What `balance()` returns: the exact sum, wrapped to 64 bits and clamped at zero. */
  ghost function Balance(info: UserCurrencyInfo): u64 {
    Clamped(AsI64(Net(info)))
  }

  ghost function FinalizedBalance(info: UserCurrencyInfo): u64 {
    Clamped(AsI64(SettledNet(info)))
  }

  /** The exact balance is a signed 64-bit number. */
  ghost predicate NetFits(info: UserCurrencyInfo) {
    -TWO_TO_THE_63 <= Net(info) < TWO_TO_THE_63
  }

  lemma ClampedIs(x: int)
    ensures var r := x % TWO_TO_THE_64; Clamped(AsI64(x)) == if r < TWO_TO_THE_63 then r else 0
  {}

  lemma ClampedExactIff(x: int)
    ensures Clamped(AsI64(x)) == (if x < 0 then 0 else x)
      <==> x < TWO_TO_THE_63
           && (-TWO_TO_THE_63 <= x || x % TWO_TO_THE_64 == 0 || TWO_TO_THE_63 <= x % TWO_TO_THE_64)
  {
    ClampedIs(x);
  }

  /**
   `balance()` is the exact balance, clamped at zero, exactly when that is below 2^63 and is
   not so far below zero that it wraps around to a positive number.
   */
  lemma BalanceExactIff(info: UserCurrencyInfo)
    ensures Balance(info) == (if Net(info) < 0 then 0 else Net(info))
      <==> Net(info) < TWO_TO_THE_63
           && (NetFits(info) || Net(info) % TWO_TO_THE_64 == 0 || TWO_TO_THE_63 <= Net(info) % TWO_TO_THE_64)
  {
    ClampedExactIff(Net(info));
  }

  /** When the finalized balance does not exceed the balance, in terms of the two exact sums. */
  lemma FinalizedWithinBalanceIff(info: UserCurrencyInfo)
    ensures var settled, net := SettledNet(info) % TWO_TO_THE_64, Net(info) % TWO_TO_THE_64;
      FinalizedBalance(info) <= Balance(info)
      <==> settled == 0 || TWO_TO_THE_63 <= settled || settled <= net < TWO_TO_THE_63
  {
    ClampedIs(SettledNet(info));
    ClampedIs(Net(info));
  }

  /** Deposits are not negative. */
  ghost predicate DepositsOk(txs: seq<Transaction>) {
    forall i :: 0 <= i < |txs| ==> txs[i].Amount() >= 0
  }

  lemma {:induction false} SettledWithinCounted(txs: seq<Transaction>)
    requires DepositsOk(txs)
    ensures 0 <= SettledSum(txs) <= CountedSum(txs)
  {
    if txs != [] {
      SettledWithinCounted(txs[..|txs| - 1]);
    }
  }

  /** Nothing is both finalized and conflicted, so the finalized balance never exceeds the balance while both fit. */
  lemma FinalizedWithinBalance(info: UserCurrencyInfo)
    requires DepositsOk(info.transactions) && -TWO_TO_THE_63 <= SettledNet(info) && Net(info) < TWO_TO_THE_63
    ensures SettledNet(info) <= Net(info)
    ensures FinalizedBalance(info) <= Balance(info)
    ensures AsI64(Net(info)) == Net(info) && AsI64(SettledNet(info)) == SettledNet(info)
  {
    hide Movements;
    SettledWithinCounted(info.transactions);
  }

  /** The sum so far and the terms still to come wrap to the whole. */
  ghost predicate SumsTo<K, V>(total: int, rest: map<K, V>, f: V -> int, all: int) {
    AsU64(total + Sum(rest, f)) == AsU64(all)
  }

  /** Moving one term from what is still to come to what was added so far. */
  lemma NextTerm<K, V>(total: int, rest: map<K, V>, f: V -> int, all: int, k: K)
    requires k in rest && SumsTo(total, rest, f, all)
    ensures SumsTo(AsU64(total + f(rest[k])), rest - {k}, f, all)
  {
    var term, left := f(rest[k]), Sum(rest - {k}, f);
    SumRemove(rest, k, f);
    SumStepWraps(total, term, left);
  }

  lemma NothingToCome<K, V>(total: u64, f: V -> int, all: int)
    requires SumsTo<K, V>(total, map[], f, all)
    ensures total == AsU64(all)
  {
    assert Sum<K, V>(map[], f) == 0;
  }

  /** A wrapping 64-bit sum over the values of a hash map, in whatever order it iterates. */
  method WrappingSum<K(==), V>(m: map<K, V>, f: V -> int) returns (total: u64)
    ensures total == AsU64(Sum(m, f))
  {
    var rest := m;
    total := 0;
    ghost var all := Sum(m, f);
    while rest != map[]
      invariant SumsTo(total, rest, f, all)
      decreases |rest|
    {
      var k :| k in rest;
      NextTerm(total, rest, f, all, k);
      total := AsU64(total + f(rest[k]));
      rest := rest - {k};
    }
    NothingToCome<K, V>(total, f, all);
  }

  /** A wrapping signed sum over a transaction list; conflicted or unsettled entries are filtered out first. */
  method WrappingTxSum(txs: seq<Transaction>, settledOnly: bool) returns (total: i64)
    ensures total == AsI64(if settledOnly then SettledSum(txs) else CountedSum(txs))
  {
    total := 0;
    for i := 0 to |txs|
      invariant total == AsI64(if settledOnly then SettledSum(txs[..i]) else CountedSum(txs[..i]))
    {
      assert txs[..i + 1][..i] == txs[..i];
      ghost var before := if settledOnly then SettledSum(txs[..i]) else CountedSum(txs[..i]);
      if if settledOnly then txs[i].IsFinalized() else !txs[i].IsConflicted() {
        AddWrapped(before, txs[i].Amount());
        total := AsI64(total + txs[i].Amount());
      }
    }
    assert txs[..|txs|] == txs;
  }

  lemma CastsAgree(x: int)
    ensures AsI64(AsU64(x)) == AsI64(x)
  {
    AddWrappedU64(x, 0);
  }

  lemma DifferenceWraps(x: int, y: int)
    ensures AsI64(AsI64(x) - AsI64(y)) == AsI64(x - y)
  {
    AddWrapped(x, -(AsI64(y) as int));
    SubtractWrapped(x, y);
  }

  /** `(incoming as i64) - (pending as i64) - (outgoing as i64)` */
  function MachineMovements(incoming: u64, pending: u64, outgoing: u64): i64 {
    AsI64((AsI64((AsI64(incoming) as int) - AsI64(pending)) as int) - AsI64(outgoing))
  }

  lemma CastDifference(x: int, y: int)
    ensures AsI64(AsI64(x) - AsI64(AsU64(y))) == AsI64(x - y)
  {
    CastsAgree(y);
    DifferenceWraps(x, y);
  }

  lemma MovementsWrap(i: int, p: int, o: int)
    ensures MachineMovements(AsU64(i), AsU64(p), AsU64(o)) == AsI64(i - p - o)
  {
    CastsAgree(i);
    CastDifference(i, p);
    CastDifference(i - p, o);
  }

  /** The three unsigned sums, cast and subtracted. */
  method ComputeMovements(info: UserCurrencyInfo) returns (val: i64)
    ensures val == AsI64(Movements(info))
  {
    var pending := WrappingSum(info.withdrawalRequests, CostOf());
    var incoming := WrappingSum(info.incomingExchangeRequests, IncomingOf());
    var outgoing := WrappingSum(info.exchangeRequests, OutgoingOf());
    val := MachineMovements(incoming, pending, outgoing);
    MovementsWrap(Sum(info.incomingExchangeRequests, IncomingOf()), Sum(info.withdrawalRequests, CostOf()),
      Sum(info.exchangeRequests, OutgoingOf()));
  }

  /** `balance()` and `finalized_balance()`: loops over the four collections, in machine arithmetic. */
  method ComputeBalance(info: UserCurrencyInfo, settledOnly: bool) returns (r: u64)
    ensures r == if settledOnly then FinalizedBalance(info) else Balance(info)
  {
    var txSum := WrappingTxSum(info.transactions, settledOnly);
    var val := ComputeMovements(info);
    AddBothWrapped(if settledOnly then SettledSum(info.transactions) else CountedSum(info.transactions),
      Movements(info));
    r := Clamped(AsI64((txSum as int) + val));
  }

  // ---------- The transaction list of an account, edited in place ----------

  method UpdateBtcTx(info: UserCurrencyInfo, tx: BtcTransaction) returns (r: UserCurrencyInfo)
    ensures r == info.(transactions := Upsert(info.transactions, tx))
  {
    r := info;
    if tx.amount >= 0 {
      for i := 0 to |r.transactions|
        invariant r == info
        invariant forall j :: 0 <= j < i ==> !r.transactions[j].IsAt(tx.Key())
      {
        if r.transactions[i].Btc? && r.transactions[i].btc.Key() == tx.Key() {
          PositionIs(info.transactions, tx.Key(), i);
          r := r.(transactions := r.transactions[i := Btc(tx)]);
          return;
        }
      }
      PositionIs(info.transactions, tx.Key(), |info.transactions|);
      r := r.(transactions := r.transactions + [Btc(tx)]);
    }
  }

  method CancelBtcTx(info: UserCurrencyInfo, cancel: TxCancel) returns (r: UserCurrencyInfo)
    ensures r == info.(transactions := Remove(info.transactions, cancel.Key()))
  {
    var removeAt := None;
    for i := 0 to |info.transactions|
      invariant removeAt == None
      invariant forall j :: 0 <= j < i ==> !info.transactions[j].IsAt(cancel.Key())
    {
      if info.transactions[i].Btc? && info.transactions[i].btc.Key() == cancel.Key() {
        removeAt := Some(i);
        break;
      }
    }
    PositionIs(info.transactions, cancel.Key(), removeAt.GetOr(|info.transactions|));
    r := info;
    if removeAt.Some? {
      var i := removeAt.value;
      r := r.(transactions := r.transactions[..i] + r.transactions[i + 1..]);
    }
  }
}
