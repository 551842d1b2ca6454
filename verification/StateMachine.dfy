/**
 The ledger as a transition function: what each of the 23 update kinds does to the
 state. `Ledger` (the mutable form) is proved against these functions.

 Three things a step consults are not functions of the state and the update: the fresh
 id and clock reading stored in a limit request, and which entry a search over a hash
 map happens to meet first. They are the `Nondet` argument; `Admissible` says which
 search results are possible.
 */
module StateMachine {
  import opened Domain
  import opened Collections
  import opened Accounts
  import opened Updates
  import T = Transactions
  import W = Withdrawals
  import L = Limits
  import X = Exchanges

  datatype Nondet = Nondet(limitId: Uuid, limitCreatedAt: string, owner: Option<UserId>, completed: Option<Uuid>)

  datatype Outcome = Outcome(state: State, result: Option<UpdateResult>)

  // ---------- Access to users and accounts ----------

  predicate Has(s: State, u: UserId, c: Currency) {
    u in s.users && c in s.users[u].currencies
  }

  function Account(s: State, u: UserId, c: Currency): UserCurrencyInfo
    requires Has(s, u, c)
  {
    s.users[u].currencies[c]
  }

  function GetUser(s: State, u: UserId): Result<UserInfo, StateUpdateErr> {
    if u in s.users then Ok(s.users[u]) else Err(UserNotFound(u))
  }

  function GetAccount(s: State, u: UserId, c: Currency): Result<UserCurrencyInfo, StateUpdateErr> {
    if u !in s.users then Err(UserNotFound(u))
    else if c !in s.users[u].currencies then Err(UserMissingCurrency(u, c))
    else Ok(s.users[u].currencies[c])
  }

  function SetUser(s: State, u: UserId, user: UserInfo): State {
    s.(users := s.users[u := user])
  }

  function SetAccount(s: State, u: UserId, c: Currency, info: UserCurrencyInfo): State
    requires u in s.users
  {
    SetUser(s, u, s.users[u].(currencies := s.users[u].currencies[c := info]))
  }

  // ---------- Searches over hash maps ----------

  predicate IsExchangeAddress(s: State, address: CurrencyAddress) {
    var addresses := s.exchangeState.addresses;
    address.Currency() in addresses && addresses[address.Currency()].Text() == address.Text()
  }

  predicate OwnsAddress(s: State, u: UserId, address: CurrencyAddress) {
    u in s.users && s.users[u].HasAddress(address)
  }

  ghost predicate CompletedIn(s: State, u: UserId, txid: CurrencyTxId, id: Uuid) {
    u in s.users && UserCompletedBy(s.users[u], txid, id)
  }

  /** The user `find_user_address` meets first. */
  function FindUserAddress(s: State, address: CurrencyAddress, nd: Nondet): Option<UserId> {
    if nd.owner.Some? && OwnsAddress(s, nd.owner.value, address) then nd.owner else None
  }

  /** The request `find_withdrawal_by_tx_id` meets first. */
  ghost function FindWithdrawal(s: State, txid: CurrencyTxId, nd: Nondet): Option<Uuid> {
    if nd.completed.Some? && exists u :: CompletedIn(s, u, txid, nd.completed.value) then nd.completed else None
  }

  /** A search comes back empty-handed only when there is nothing to find. */
  ghost predicate AdmissibleOwner(s: State, address: CurrencyAddress, nd: Nondet) {
    FindUserAddress(s, address, nd).None? ==> forall u :: !OwnsAddress(s, u, address)
  }

  ghost predicate AdmissibleCompleted(s: State, txid: CurrencyTxId, nd: Nondet) {
    FindWithdrawal(s, txid, nd).None? ==> forall u, id :: !CompletedIn(s, u, txid, id)
  }

  // ---------- Users, invites and settings ----------

  function SignedUp(s: State, created: Time, signup: SignupInfo): Result<State, StateUpdateErr> {
    if signup.username in s.users then Err(UserAlreadyExists(signup.username))
    else if signup.invite !in s.invites then Err(InviteNotFound)
    else Ok(SetUser(s, signup.username, NewUser(created, signup)).(invites := s.invites - {signup.invite}))
  }

  function InviteGenerated(s: State, rec: InviteRec): Result<State, StateUpdateErr> {
    if rec.invite in s.invites then Err(InviteAlreadyExist)
    else Ok(s.(invites := s.invites[rec.invite := rec]))
  }

  function DepositAddressAdded(s: State, u: UserId, address: CurrencyAddress): Result<State, StateUpdateErr> {
    var info :- GetAccount(s, u, address.Currency());
    if address in info.depositInfo then Err(DepositAddressAlreadyAllocated(u, address))
    else Ok(SetAccount(s, u, address.Currency(), info.(depositInfo := info.depositInfo + [address])))
  }

  /** The four updates that edit one user's settings. */
  predicate IsSettings(body: UpdateBody) {
    body.SetLanguage? || body.ConfigUpdate? || body.PasswordChange? || body.SetPublicKey?
  }

  function SettingsUser(body: UpdateBody): UserId
    requires IsSettings(body)
  {
    match body
    case SetLanguage(u, _) => u
    case ConfigUpdate(d) => d.user
    case PasswordChange(u, _) => u
    case SetPublicKey(u, _) => u
  }

  function WithConfig(config: UserConfig, d: ConfigUpdateData): UserConfig {
    config.(email := d.email.GetOr(config.email), phone := d.phone.GetOr(config.phone),
      tgName := d.tgName.GetOr(config.tgName))
  }

  /** Settings never touch accounts or limit requests. */
  function WithSettings(user: UserInfo, body: UpdateBody): (r: UserInfo)
    requires IsSettings(body)
    ensures r == user.(config := r.config, auth := r.auth, publicKey := r.publicKey)
  {
    match body
    case SetLanguage(_, language) => user.(config := user.config.(language := language))
    case ConfigUpdate(d) => user.(config := WithConfig(user.config, d))
    case PasswordChange(_, newPassword) => user.(auth := Password(newPassword))
    case SetPublicKey(_, key) => user.(publicKey := key)
  }

  function SettingsChanged(s: State, body: UpdateBody): Result<State, StateUpdateErr>
    requires IsSettings(body)
  {
    var user :- GetUser(s, SettingsUser(body));
    Ok(SetUser(s, SettingsUser(body), WithSettings(user, body)))
  }

  ghost function TokensUpdated(s: State, t: TokenUpdate): Result<State, StateUpdateErr> {
    var user :- GetUser(s, t.user);
    var c := ERC20(t.token);
    match t.action
    case Enable =>
      if c in user.currencies then Err(TokenAlreadyEnabled(t.token))
      else Ok(SetAccount(s, t.user, c, NewAccount(c)))
    case Disable =>
      if c !in user.currencies then Err(TokenAlreadyDisabled(t.token))
      else if Balance(user.currencies[c]) > 0 then Err(TokenNonZeroBalance(t.token))
      else Ok(SetUser(s, t.user, user.(currencies := user.currencies - {c},
                                       limitChangeRequests := user.limitChangeRequests - {c})))
  }

  // ---------- Withdrawals ----------

  function WithdrawalCreated(s: State, created: Time, w: W.WithdrawalRequestInfo): Result<Outcome, StateUpdateErr> {
    var c := w.address.Currency();
    var info :- GetAccount(s, w.user, c);
    var req := W.NewRequest(created, w);
    var s' := SetAccount(s, w.user, c, info.(withdrawalRequests := info.withdrawalRequests[w.id := req]));
    match w.requestType
    case UnderLimit =>
      if info.limitInfo.limit.amount < AsU64(info.limitInfo.spent + w.amount) then Err(LimitOverflow)
      else Ok(Outcome(s', Some(WithdrawalUnderlimit(req))))
    case OverLimit => Ok(Outcome(s', None))
  }

  function WithdrawalVoted(s: State, d: W.WithdrawalRequestDecisionInfo): Result<Outcome, StateUpdateErr> {
    var info :- GetAccount(s, d.userId, d.currency);
    if d.requestId !in info.withdrawalRequests then Err(WithdrawalRequestNotFound(d.userId, d.requestId))
    else
      var voted :- W.Vote(info.withdrawalRequests[d.requestId], d);
      Ok(Outcome(
        SetAccount(s, d.userId, d.currency,
          info.(withdrawalRequests := info.withdrawalRequests[d.requestId := voted.0])),
        if voted.1 then Some(WithdrawConfirmed(voted.0.id)) else None))
  }

  /** One account after every request stored under `id` was given `status`. */
  function WithStatus(info: UserCurrencyInfo, id: Uuid, status: W.WithdrawalRequestStatus): UserCurrencyInfo {
    if id in info.withdrawalRequests
    then info.(withdrawalRequests := info.withdrawalRequests[id := info.withdrawalRequests[id].(status := status)])
    else info
  }

  function StatusSetter(id: Uuid, status: W.WithdrawalRequestStatus): UserCurrencyInfo -> UserCurrencyInfo {
    (info: UserCurrencyInfo) => WithStatus(info, id, status)
  }

  /** The user with every account passed through `f`. */
  function EachAccount(user: UserInfo, f: UserCurrencyInfo -> UserCurrencyInfo): UserInfo {
    user.(currencies := MapValues(user.currencies, f))
  }

  function AccountsMapper(f: UserCurrencyInfo -> UserCurrencyInfo): UserInfo -> UserInfo {
    (user: UserInfo) => EachAccount(user, f)
  }

  /** The state with every account of every user passed through `f`. */
  function EveryAccount(s: State, f: UserCurrencyInfo -> UserCurrencyInfo): State {
    s.(users := MapValues(s.users, AccountsMapper(f)))
  }

  function StatusSet(s: State, id: Uuid, status: W.WithdrawalRequestStatus): State {
    EveryAccount(s, StatusSetter(id, status))
  }

  // ---------- Deposits ----------

  function BtcTxUpdated(s: State, tx: T.BtcTransaction, nd: Nondet): State {
    var address := BtcAddress(tx.address);
    if IsExchangeAddress(s, address) then s.(exchangeState := X.Credited(s.exchangeState, tx))
    else
      match FindUserAddress(s, address, nd)
      case None => s
      case Some(u) =>
        var info := s.users[u].currencies[BTC];
        SetAccount(s, u, BTC, info.(transactions := T.Upsert(info.transactions, tx)))
  }

  /** The deposit, if it is a user's, is dropped from the list. */
  function DepositDropped(s: State, cancel: T.TxCancel, nd: Nondet): State {
    match FindUserAddress(s, BtcAddress(cancel.address), nd)
    case None => s
    case Some(u) =>
      var info := s.users[u].currencies[BTC];
      SetAccount(s, u, BTC, info.(transactions := T.Remove(info.transactions, cancel.Key())))
  }

  /** The withdrawal, if the transaction completed one, counts as rejected by the node. */
  ghost function WithdrawalReverted(s: State, cancel: T.TxCancel, nd: Nondet): State {
    match FindWithdrawal(s, BtcTxId(cancel.txid), nd)
    case None => s
    case Some(id) => StatusSet(s, id, W.NodeRejected("Tx canceled"))
  }

  ghost function BtcTxCancelled(s: State, cancel: T.TxCancel, nd: Nondet): State {
    if IsExchangeAddress(s, BtcAddress(cancel.address)) then s.(exchangeState := X.Uncredited(s.exchangeState, cancel))
    else WithdrawalReverted(DepositDropped(s, cancel, nd), cancel, nd)
  }

  /** The picks of `nd` are ones the searches of this step could make. */
  ghost predicate Admissible(s: State, body: UpdateBody, nd: Nondet) {
    match body
    case UpdateBtcTx(tx) =>
      IsExchangeAddress(s, BtcAddress(tx.address)) || AdmissibleOwner(s, BtcAddress(tx.address), nd)
    case CancelBtcTx(c) =>
      || IsExchangeAddress(s, BtcAddress(c.address))
      || (AdmissibleOwner(s, BtcAddress(c.address), nd)
        && AdmissibleCompleted(DepositDropped(s, c, nd), BtcTxId(c.txid), nd))
    case _ => true
  }

  // ---------- Limits ----------

  function NewLimitRequest(user: UserInfo, r: L.LimitChangeUpd, nd: Nondet): L.LimitChangeData {
    L.LimitChangeData(nd.limitId, user.username, nd.limitCreatedAt, L.InProgress(0, 0), r.currency, r.limit, [], [])
  }

  function LimitRequested(s: State, r: L.LimitChangeUpd, nd: Nondet): Result<State, StateUpdateErr> {
    var _ :- GetAccount(s, r.user, r.currency);
    var user := s.users[r.user];
    Ok(SetUser(s, r.user,
      user.(limitChangeRequests := user.limitChangeRequests[r.currency := NewLimitRequest(user, r, nd)])))
  }

  function LimitCancelled(s: State, r: L.LimitCancelData): Result<State, StateUpdateErr> {
    var user :- GetUser(s, r.user);
    Ok(SetUser(s, r.user, user.(limitChangeRequests := user.limitChangeRequests - {r.currency})))
  }

  /** The granted limit is the one in the decision; it applies if the user still holds the currency. */
  function LimitGranted(user: UserInfo, d: L.LimitChangeDecision): UserInfo {
    var requests := user.limitChangeRequests - {d.currency};
    if d.currency in user.currencies then
      var info := user.currencies[d.currency].(limitInfo := L.LimitInfo(d.requestedLimit, 0));
      user.(limitChangeRequests := requests, currencies := user.currencies[d.currency := info])
    else user.(limitChangeRequests := requests)
  }

  function LimitVoted(s: State, d: L.LimitChangeDecision): Result<State, StateUpdateErr> {
    var user :- GetUser(s, d.user);
    if d.currency !in user.limitChangeRequests then Err(LimitChangeNotFound)
    else
      var outcome :- L.DecideLimit(user.limitChangeRequests[d.currency], d);
      Ok(SetUser(s, d.user,
        match outcome
        case Pending(data) => user.(limitChangeRequests := user.limitChangeRequests[d.currency := data])
        case Granted => LimitGranted(user, d)
        case Refused => user.(limitChangeRequests := user.limitChangeRequests - {d.currency})))
  }

  /** The three updates about limits. */
  predicate AboutLimits(body: UpdateBody) {
    body.LimitsChangeRequest? || body.CancelLimitChange? || body.LimitChangeDecision?
  }

  function LimitsHandled(s: State, body: UpdateBody, nd: Nondet): Result<State, StateUpdateErr>
    requires AboutLimits(body)
  {
    match body
    case LimitsChangeRequest(r) => LimitRequested(s, r, nd)
    case CancelLimitChange(r) => LimitCancelled(s, r)
    case LimitChangeDecision(d) => LimitVoted(s, d)
  }

  function SpentCleared(info: UserCurrencyInfo, span: L.LimitSpan): UserCurrencyInfo {
    if info.limitInfo.limit.span == span then info.(limitInfo := info.limitInfo.(spent := 0)) else info
  }

  function SpentClearer(span: L.LimitSpan): UserCurrencyInfo -> UserCurrencyInfo {
    (info: UserCurrencyInfo) => SpentCleared(info, span)
  }

  // ---------- Exchanges ----------

  ghost function OrderRequested(s: State, r: X.ExchangeOrderUpd): Result<State, StateUpdateErr> {
    var info :- GetAccount(s, r.user, r.currencyFrom);
    if Balance(info) < r.amountFrom then Err(InsufficientFunds(r.user, r.currencyFrom))
    else Ok(SetAccount(s, r.user, r.currencyFrom,
      info.(exchangeRequests := info.exchangeRequests[r.id := X.NewOrder(r)])))
  }

  /** First half of a decision: the order itself, and the exchange wallet if the order just completed. */
  function OrderDecided(s: State, d: X.ExchangeDecision): Result<(State, bool), StateUpdateErr> {
    var info :- GetAccount(s, d.user, d.currencyFrom);
    if d.id !in info.exchangeRequests then Err(UserMissingExchange(d.user, d.currencyFrom))
    else
      var decided :- X.DecideOrder(info.exchangeRequests[d.id], d);
      var s' := SetAccount(s, d.user, d.currencyFrom,
        info.(exchangeRequests := info.exchangeRequests[d.id := decided.0]));
      Ok((if decided.1 then s'.(exchangeState := X.Booked(s.exchangeState, decided.0.ToUpd())) else s', decided.1))
  }

  /** Second half: the amount bought, in the currency the decision names. */
  function IncomingAdded(s: State, d: X.ExchangeDecision): Result<State, StateUpdateErr> {
    var info :- GetAccount(s, d.user, d.currencyTo);
    Ok(SetAccount(s, d.user, d.currencyTo,
      info.(incomingExchangeRequests := info.incomingExchangeRequests[d.id := d.amountTo])))
  }

  function OrderSettled(s: State, d: X.ExchangeDecision): Result<State, StateUpdateErr> {
    var half :- OrderDecided(s, d);
    if half.1 then IncomingAdded(half.0, d) else Ok(half.0)
  }

  // ---------- The step ----------

  function Silent(r: Result<State, StateUpdateErr>): Result<Outcome, StateUpdateErr> {
    var s :- r;
    Ok(Outcome(s, None))
  }

  /** The updates that only concern one user, or the invites. */
  predicate AboutUsers(body: UpdateBody) {
    IsSettings(body) || AboutLimits(body)
    || body.Signup? || body.DepositAddress? || body.UpdateTokens? || body.GenInvite?
  }

  /** Their handlers; none of them has a result to send on. */
  ghost function HandleUser(s: State, created: Time, body: UpdateBody, nd: Nondet): Result<State, StateUpdateErr>
    requires AboutUsers(body)
  {
    if IsSettings(body) then SettingsChanged(s, body)
    else if AboutLimits(body) then LimitsHandled(s, body, nd)
    else
      match body
      case Signup(i) => SignedUp(s, created, i)
      case DepositAddress(u, a) => DepositAddressAdded(s, u, a)
      case UpdateTokens(t) => TokensUpdated(s, t)
      case GenInvite(i) => InviteGenerated(s, i)
  }

  function ExchangeAddressSet(s: State, a: CurrencyAddress): State {
    var x := s.exchangeState;
    s.(exchangeState := x.(addresses := x.addresses[a.Currency() := a]))
  }

  /** The handlers that move money, set the chain state, or replace everything. */
  ghost function HandleOther(s: State, created: Time, body: UpdateBody, nd: Nondet): Result<Outcome, StateUpdateErr>
    requires !AboutUsers(body)
  {
    match body
    case Snapshot(st) => Ok(Outcome(st, None))
    case CreateWithdrawalRequest(w) => WithdrawalCreated(s, created, w)
    case WithdrawalRequestDecision(d) => WithdrawalVoted(s, d)
    case WithdrawalRequestComplete(i) => Ok(Outcome(StatusSet(s, i.id, i.Status()), None))
    case WithdrawalRequestNodeRejected(i) => Ok(Outcome(StatusSet(s, i.id, W.NodeRejected(i.reason)), None))
    case BestBtcBlock(b) => Ok(Outcome(s.(btcState := b), None))
    case UpdateBtcTx(tx) => Ok(Outcome(BtcTxUpdated(s, tx, nd), None))
    case CancelBtcTx(c) => Ok(Outcome(BtcTxCancelled(s, c, nd), None))
    case ClearLimits(span) => Ok(Outcome(EveryAccount(s, SpentClearer(span)), None))
    case ExchangeRequest(r) => Silent(OrderRequested(s, r))
    case ExchangeDecision(d) => Silent(OrderSettled(s, d))
    case ExchangeAddress(a) => Ok(Outcome(ExchangeAddressSet(s, a), None))
  }

  /** What the update does, before the time stamp. */
  ghost function Handle(s: State, created: Time, body: UpdateBody, nd: Nondet): Result<Outcome, StateUpdateErr> {
    if AboutUsers(body) then Silent(HandleUser(s, created, body, nd)) else HandleOther(s, created, body, nd)
  }

  /** `apply_update`: the handler's effect, then the time stamp. */
  ghost function Apply(s: State, upd: StateUpdate, nd: Nondet): Result<Outcome, StateUpdateErr> {
    var o :- Handle(s, upd.created, upd.body, nd);
    Ok(o.(state := o.state.(lastChanged := upd.created)))
  }

  /** Applying an update is its handler followed by the time stamp. */
  lemma ApplyStamps(s: State, upd: StateUpdate, nd: Nondet)
    requires Apply(s, upd, nd).Ok?
    ensures Handle(s, upd.created, upd.body, nd).Ok?
    ensures Apply(s, upd, nd).value.state
      == Handle(s, upd.created, upd.body, nd).value.state.(lastChanged := upd.created)
  {}
}
