/**
 The ledger as the running program updates it: a mutable state whose handlers insert
 into and remove from its maps, push onto vote lists and loop over users, accounts and
 requests. Every handler is proved against the transition function of `StateMachine`.
 */
module Ledgers {
  import opened Domain
  import opened Collections
  import opened Accounts
  import opened Updates
  import opened StateMachine
  import opened Requests
  import T = Transactions
  import W = Withdrawals
  import L = Limits
  import X = Exchanges

  /** A handler either reaches the state of the transition function, or fails with its error and changes nothing. */
  ghost predicate Did(before: State, after: State, r: Result<(), StateUpdateErr>, spec: Result<State, StateUpdateErr>) {
    match spec
    case Ok(s) => r == Ok(()) && after == s
    case Err(e) => r == Err(e) && after == before
  }

  /** The id of a completed withdrawal of the account, whichever the iteration meets first. */
  method FindCompletedRequest(info: UserCurrencyInfo, txid: CurrencyTxId) returns (r: Option<Uuid>)
    ensures r.Some? ==> CompletedBy(info, txid, r.value)
    ensures r.None? ==> forall id :: !CompletedBy(info, txid, id)
  {
    r := None;
    if txid.Currency() == info.currency {
      var rest := info.withdrawalRequests.Keys;
      while rest != {}
        invariant rest <= info.withdrawalRequests.Keys
        invariant forall k :: k in info.withdrawalRequests && k !in rest ==>
          !(info.withdrawalRequests[k].status.Completed? && info.withdrawalRequests[k].status.txid == txid)
        decreases rest
      {
        var k :| k in rest;
        var req := info.withdrawalRequests[k];
        if req.status.Completed? && req.status.txid == txid {
          return Some(req.id);
        }
        rest := rest - {k};
      }
    }
  }

  /** The requests of one account after the innermost of the three update loops. */
  method SetStatusInAccount(info: UserCurrencyInfo, id: Uuid, status: W.WithdrawalRequestStatus)
    returns (r: UserCurrencyInfo)
    ensures r == WithStatus(info, id, status)
  {
    var requests := info.withdrawalRequests;
    var rest := requests.Keys;
    while rest != {}
      invariant rest <= requests.Keys == info.withdrawalRequests.Keys
      invariant forall k :: k in requests ==>
        requests[k]
          == if k !in rest && k == id then info.withdrawalRequests[k].(status := status) else info.withdrawalRequests[k]
      decreases rest
    {
      var k :| k in rest;
      if k == id {
        requests := requests[k := requests[k].(status := status)];
      }
      rest := rest - {k};
    }
    r := info.(withdrawalRequests := requests);
    assert r.withdrawalRequests == WithStatus(info, id, status).withdrawalRequests;
  }

  class Ledger {
    var users: map<UserId, UserInfo>
    var lastChanged: Time
    var btcState: BtcState
    var invites: map<Uuid, InviteRec>
    var exchangeState: X.ExchangeWallet

    ghost function View(): State
      reads this, exchangeState
    {
      State(users, lastChanged, btcState, invites, exchangeState.View())
    }

    /** A ledger holding the given state; `clone` and `State::new` are this with the state copied or new. */
    constructor (s: State)
      ensures View() == s && fresh(exchangeState)
    {
      users, lastChanged, btcState, invites := s.users, s.lastChanged, s.btcState, s.invites;
      exchangeState := new X.ExchangeWallet(s.exchangeState);
    }

    /** A deep copy: later changes to either ledger leave the other alone. */
    method Clone() returns (copy: Ledger)
      ensures fresh(copy) && fresh(copy.exchangeState) && copy.View() == View()
    {
      var x := exchangeState;
      var y := X.ExchangeState(x.exchanges, x.addresses, x.deposits, x.balances);
      copy := new Ledger(State(users, lastChanged, btcState, invites, y));
    }

    // ---------- Searches ----------

    method FindUserAddress(address: CurrencyAddress) returns (r: Option<UserId>)
      ensures r.Some? ==> OwnsAddress(View(), r.value, address)
      ensures r.None? ==> forall u :: !OwnsAddress(View(), u, address)
    {
      var rest := users.Keys;
      while rest != {}
        invariant rest <= users.Keys
        invariant forall u :: u in users && u !in rest ==> !users[u].HasAddress(address)
        decreases rest
      {
        var u :| u in rest;
        if users[u].HasAddress(address) {
          return Some(u);
        }
        rest := rest - {u};
      }
      return None;
    }

    method FindWithdrawalByTxId(txid: CurrencyTxId) returns (r: Option<Uuid>)
      ensures r.Some? ==> exists u :: CompletedIn(View(), u, txid, r.value)
      ensures r.None? ==> forall u, id :: !CompletedIn(View(), u, txid, id)
    {
      var rest := users.Keys;
      while rest != {}
        invariant rest <= users.Keys
        invariant forall u, id :: u in users && u !in rest ==> !UserCompletedBy(users[u], txid, id)
        decreases rest
      {
        var u :| u in rest;
        if txid.Currency() in users[u].currencies {
          r := FindCompletedRequest(users[u].currencies[txid.Currency()], txid);
          if r.Some? {
            assert CompletedIn(View(), u, txid, r.value);
            return;
          }
        }
        rest := rest - {u};
      }
      return None;
    }

    /** The scan over all users, currencies and requests. */
    method GetWithdrawalRequest(id: Uuid) returns (r: Option<W.WithdrawalRequest>)
      ensures ScanResult(View(), id, r)
    {
      var rest := users.Keys;
      while rest != {}
        invariant rest <= users.Keys
        invariant forall u, c :: u !in rest ==> !RequestAt(View(), u, c, id)
        decreases rest
      {
        var u :| u in rest;
        var left := users[u].currencies.Keys;
        while left != {}
          invariant left <= users[u].currencies.Keys
          invariant forall c :: c !in left ==> !RequestAt(View(), u, c, id)
          decreases left
        {
          var c :| c in left;
          if id in users[u].currencies[c].withdrawalRequests {
            assert RequestAt(View(), u, c, id);
            return Some(users[u].currencies[c].withdrawalRequests[id]);
          }
          left := left - {c};
        }
        rest := rest - {u};
      }
      return None;
    }

    // ---------- Users, invites and settings ----------

    method WithSignup(created: Time, signup: SignupInfo) returns (r: Result<(), StateUpdateErr>)
      modifies this`users, this`invites
      ensures Did(old(View()), View(), r, SignedUp(old(View()), created, signup))
    {
      if signup.username in users {
        return Err(UserAlreadyExists(signup.username));
      }
      if signup.invite !in invites {
        return Err(InviteNotFound);
      }
      users := users[signup.username := NewUser(created, signup)];
      invites := invites - {signup.invite};
      return Ok(());
    }

    method GenInvite(rec: InviteRec) returns (r: Result<(), StateUpdateErr>)
      modifies this`invites
      ensures Did(old(View()), View(), r, InviteGenerated(old(View()), rec))
    {
      if rec.invite in invites {
        return Err(InviteAlreadyExist);
      }
      invites := invites[rec.invite := rec];
      return Ok(());
    }

    /** `get_mut` twice, as a check: the user and the account exist, or which one is missing. */
    method CheckAccount(u: UserId, c: Currency) returns (r: Result<(), StateUpdateErr>)
      ensures match GetAccount(View(), u, c)
        case Ok(_) => r == Ok(())
        case Err(e) => r == Err(e)
    {
      if u !in users {
        return Err(UserNotFound(u));
      }
      if c !in users[u].currencies {
        return Err(UserMissingCurrency(u, c));
      }
      return Ok(());
    }

    /** Write an account back through the two mutable borrows. */
    method PutAccount(u: UserId, c: Currency, info: UserCurrencyInfo)
      requires u in users
      modifies this`users
      ensures View() == SetAccount(old(View()), u, c, info)
    {
      var user := users[u];
      users := users[u := user.(currencies := user.currencies[c := info])];
    }

    method WithDepositAddress(u: UserId, address: CurrencyAddress) returns (r: Result<(), StateUpdateErr>)
      modifies this`users
      ensures Did(old(View()), View(), r, DepositAddressAdded(old(View()), u, address))
    {
      var c := address.Currency();
      r := CheckAccount(u, c);
      if r.Err? {
        return;
      }
      var info := users[u].currencies[c];
      if address in info.depositInfo {
        return Err(DepositAddressAlreadyAllocated(u, address));
      }
      PutAccount(u, c, info.(depositInfo := info.depositInfo + [address]));
    }

    method UpdateUserConfig(d: ConfigUpdateData) returns (r: Result<(), StateUpdateErr>)
      modifies this`users
      ensures Did(old(View()), View(), r, SettingsChanged(old(View()), ConfigUpdate(d)))
    {
      if d.user !in users {
        return Err(UserNotFound(d.user));
      }
      var config := users[d.user].config;
      if d.email.Some? {
        config := config.(email := d.email.value);
      }
      if d.phone.Some? {
        config := config.(phone := d.phone.value);
      }
      if d.tgName.Some? {
        config := config.(tgName := d.tgName.value);
      }
      users := users[d.user := users[d.user].(config := config)];
      return Ok(());
    }

    method SetLanguage(u: UserId, language: string) returns (r: Result<(), StateUpdateErr>)
      modifies this`users
      ensures Did(old(View()), View(), r, SettingsChanged(old(View()), Updates.SetLanguage(u, language)))
    {
      if u !in users {
        return Err(UserNotFound(u));
      }
      users := users[u := users[u].(config := users[u].config.(language := language))];
      return Ok(());
    }

    method ChangePassword(u: UserId, newPassword: string) returns (r: Result<(), StateUpdateErr>)
      modifies this`users
      ensures Did(old(View()), View(), r, SettingsChanged(old(View()), PasswordChange(u, newPassword)))
    {
      if u !in users {
        return Err(UserNotFound(u));
      }
      users := users[u := users[u].(auth := Password(newPassword))];
      return Ok(());
    }

    method SetUserPublicKey(u: UserId, key: Option<PublicKey>) returns (r: Result<(), StateUpdateErr>)
      modifies this`users
      ensures Did(old(View()), View(), r, SettingsChanged(old(View()), SetPublicKey(u, key)))
    {
      if u !in users {
        return Err(UserNotFound(u));
      }
      users := users[u := users[u].(publicKey := key)];
      return Ok(());
    }

    method UpdateTokens(t: TokenUpdate) returns (r: Result<(), StateUpdateErr>)
      modifies this`users
      ensures Did(old(View()), View(), r, TokensUpdated(old(View()), t))
    {
      if t.user !in users {
        return Err(UserNotFound(t.user));
      }
      var c, user := ERC20(t.token), users[t.user];
      match t.action {
        case Enable =>
          if c in user.currencies {
            return Err(TokenAlreadyEnabled(t.token));
          }
          PutAccount(t.user, c, NewAccount(c));
        case Disable =>
          if c !in user.currencies {
            return Err(TokenAlreadyDisabled(t.token));
          }
          var balance := ComputeBalance(user.currencies[c], false);
          if balance > 0 {
            return Err(TokenNonZeroBalance(t.token));
          }
          users := users[t.user := user.(currencies := user.currencies - {c},
                                         limitChangeRequests := user.limitChangeRequests - {c})];
      }
      return Ok(());
    }

    // ---------- Withdrawals ----------

    method WithNewWithdrawalRequest(created: Time, w: W.WithdrawalRequestInfo)
      returns (r: Result<Option<UpdateResult>, StateUpdateErr>)
      modifies this`users
      ensures match WithdrawalCreated(old(View()), created, w)
        case Ok(o) => r == Ok(o.result) && View() == o.state
        case Err(e) => r == Err(e) && View() == old(View())
    {
      var c := w.address.Currency();
      var found := CheckAccount(w.user, c);
      if found.Err? {
        return Err(found.error);
      }
      var req := W.NewRequest(created, w);
      var info := users[w.user].currencies[c];
      match w.requestType {
        case UnderLimit =>
          if info.limitInfo.limit.amount < AsU64(info.limitInfo.spent + w.amount) {
            return Err(LimitOverflow);
          }
          PutAccount(w.user, c, info.(withdrawalRequests := info.withdrawalRequests[w.id := req]));
          return Ok(Some(WithdrawalUnderlimit(req)));
        case OverLimit =>
          PutAccount(w.user, c, info.(withdrawalRequests := info.withdrawalRequests[w.id := req]));
          return Ok(None);
      }
    }

    method WithWithdrawalRequestDecision(d: W.WithdrawalRequestDecisionInfo)
      returns (r: Result<Option<UpdateResult>, StateUpdateErr>)
      modifies this`users
      ensures match WithdrawalVoted(old(View()), d)
        case Ok(o) => r == Ok(o.result) && View() == o.state
        case Err(e) => r == Err(e) && View() == old(View())
    {
      var found := CheckAccount(d.userId, d.currency);
      if found.Err? {
        return Err(found.error);
      }
      var info := users[d.userId].currencies[d.currency];
      if d.requestId !in info.withdrawalRequests {
        return Err(WithdrawalRequestNotFound(d.userId, d.requestId));
      }
      var voted := W.CastVote(info.withdrawalRequests[d.requestId], d);
      if voted.Err? {
        return Err(voted.error);
      }
      var (req, justConfirmed) := voted.value;
      PutAccount(d.userId, d.currency, info.(withdrawalRequests := info.withdrawalRequests[d.requestId := req]));
      return Ok(if justConfirmed then Some(WithdrawConfirmed(req.id)) else None);
    }

    /** The middle one of the three update loops. */
    static method SetStatusInUser(user: UserInfo, id: Uuid, status: W.WithdrawalRequestStatus) returns (r: UserInfo)
      ensures r == EachAccount(user, StatusSetter(id, status))
    {
      r := user;
      var rest := user.currencies.Keys;
      while rest != {}
        invariant rest <= user.currencies.Keys == r.currencies.Keys
        invariant r == user.(currencies := r.currencies)
        invariant forall c :: c in r.currencies ==>
          r.currencies[c] == if c in rest then user.currencies[c] else WithStatus(user.currencies[c], id, status)
        decreases rest
      {
        var c :| c in rest;
        var info := SetStatusInAccount(r.currencies[c], id, status);
        r := r.(currencies := r.currencies[c := info]);
        rest := rest - {c};
      }
      assert r.currencies == EachAccount(user, StatusSetter(id, status)).currencies;
    }

    /** `set_withdrawal_request_completed` and `set_withdrawal_request_node_rejected`: three nested loops. */
    method SetRequestStatus(id: Uuid, status: W.WithdrawalRequestStatus)
      modifies this`users
      ensures View() == StatusSet(old(View()), id, status)
    {
      var rest := users.Keys;
      ghost var f := StatusSetter(id, status);
      while rest != {}
        invariant rest <= users.Keys == old(users).Keys
        invariant View() == old(View()).(users := users)
        invariant forall u :: u in users ==>
          users[u] == if u in rest then old(users)[u] else EachAccount(old(users)[u], f)
        decreases rest
      {
        var u :| u in rest;
        var user := SetStatusInUser(users[u], id, status);
        users := users[u := user];
        rest := rest - {u};
      }
      assert users == StatusSet(old(View()), id, status).users;
    }

    // ---------- Deposits ----------

    method IsExchangeWalletAddress(address: CurrencyAddress) returns (r: bool)
      ensures r == IsExchangeAddress(View(), address)
    {
      var c := address.Currency();
      r := c in exchangeState.addresses && exchangeState.addresses[c].Text() == address.Text();
    }

    method WithBtcTxUpdate(tx: T.BtcTransaction, newId: Uuid, clock: string) returns (ghost nd: Nondet)
      modifies this`users, exchangeState
      ensures View() == BtcTxUpdated(old(View()), tx, nd)
      ensures Admissible(old(View()), Updates.UpdateBtcTx(tx), nd)
      ensures nd.limitId == newId && nd.limitCreatedAt == clock
    {
      var address := BtcAddress(tx.address);
      nd := Nondet(newId, clock, None, None);
      var ours := IsExchangeWalletAddress(address);
      if ours {
        exchangeState.ProcessIncomingBtcTx(tx);
        return;
      }
      var owner := FindUserAddress(address);
      nd := nd.(owner := owner);
      if owner.Some? {
        var info := Accounts.UpdateBtcTx(users[owner.value].currencies[BTC], tx);
        PutAccount(owner.value, BTC, info);
      }
    }

    method WithBtcTxCancel(cancel: T.TxCancel, newId: Uuid, clock: string) returns (ghost nd: Nondet)
      modifies this`users, exchangeState
      ensures View() == BtcTxCancelled(old(View()), cancel, nd)
      ensures Admissible(old(View()), Updates.CancelBtcTx(cancel), nd)
      ensures nd.limitId == newId && nd.limitCreatedAt == clock
    {
      hide StatusSet, CompletedIn;
      var address := BtcAddress(cancel.address);
      nd := Nondet(newId, clock, None, None);
      var ours := IsExchangeWalletAddress(address);
      if ours {
        exchangeState.CancelBtcTx(cancel);
        return;
      }
      var owner := FindUserAddress(address);
      if owner.Some? {
        var info := Accounts.CancelBtcTx(users[owner.value].currencies[BTC], cancel);
        PutAccount(owner.value, BTC, info);
      }
      var completed := FindWithdrawalByTxId(BtcTxId(cancel.txid));
      nd := nd.(owner := owner, completed := completed);
      assert View() == DepositDropped(old(View()), cancel, nd);
      if completed.Some? {
        SetRequestStatus(completed.value, W.NodeRejected("Tx canceled"));
      }
    }

    // ---------- Limits ----------

    method InsertLimitsReq(r: L.LimitChangeUpd, newId: Uuid, clock: string) returns (done: Result<(), StateUpdateErr>)
      modifies this`users
      ensures Did(old(View()), View(), done, LimitRequested(old(View()), r, Nondet(newId, clock, None, None)))
    {
      done := CheckAccount(r.user, r.currency);
      if done.Err? {
        return;
      }
      var user := users[r.user];
      var data := L.LimitChangeData(newId, user.username, clock, L.InProgress(0, 0), r.currency, r.limit, [], []);
      users := users[r.user := user.(limitChangeRequests := user.limitChangeRequests[r.currency := data])];
    }

    method CancelLimitChange(r: L.LimitCancelData) returns (done: Result<(), StateUpdateErr>)
      modifies this`users
      ensures Did(old(View()), View(), done, LimitCancelled(old(View()), r))
    {
      if r.user !in users {
        return Err(UserNotFound(r.user));
      }
      users := users[r.user := users[r.user].(limitChangeRequests := users[r.user].limitChangeRequests - {r.currency})];
      return Ok(());
    }

    method WithLimitChangeDecision(d: L.LimitChangeDecision) returns (done: Result<(), StateUpdateErr>)
      modifies this`users
      ensures Did(old(View()), View(), done, LimitVoted(old(View()), d))
    {
      if d.user !in users {
        return Err(UserNotFound(d.user));
      }
      var user := users[d.user];
      if d.currency !in user.limitChangeRequests {
        return Err(LimitChangeNotFound);
      }
      var req := user.limitChangeRequests[d.currency];
      if req.status.Completed? {
        return Err(LimitAlreadyConfirmed);
      }
      if req.status.Rejected? {
        return Err(LimitAlreadyRejected);
      }
      var c, r := req.status.confirmed, req.status.rejected;
      match d.decisionType {
        case Confirm =>
          if req.HasConfirmed(d.publicKey) {
            return Err(LimitAlreadyConfirmed);
          }
          req := req.(confirmations := req.confirmations + [d.Signed()]);
          if c + 1 - r >= 2 {
            if d.currency in user.currencies {
              var info := user.currencies[d.currency];
              info := info.(limitInfo := L.LimitInfo(d.requestedLimit, 0));
              user := user.(currencies := user.currencies[d.currency := info]);
            }
            user := user.(limitChangeRequests := user.limitChangeRequests - {d.currency});
          } else {
            req := req.(status := L.InProgress(c + 1, r));
            user := user.(limitChangeRequests := user.limitChangeRequests[d.currency := req]);
          }
        case Reject =>
          if req.HasRejected(d.publicKey) {
            return Err(LimitAlreadyConfirmed);
          }
          req := req.(rejections := req.rejections + [d.Signed()]);
          if r + 1 - c >= 2 {
            user := user.(limitChangeRequests := user.limitChangeRequests - {d.currency});
          } else {
            req := req.(status := L.InProgress(c, r + 1));
            user := user.(limitChangeRequests := user.limitChangeRequests[d.currency := req]);
          }
      }
      users := users[d.user := user];
      return Ok(());
    }

    static method ClearSpent(user: UserInfo, span: L.LimitSpan) returns (r: UserInfo)
      ensures r == EachAccount(user, SpentClearer(span))
    {
      r := user;
      var rest := user.currencies.Keys;
      while rest != {}
        invariant rest <= user.currencies.Keys == r.currencies.Keys
        invariant r == user.(currencies := r.currencies)
        invariant forall c :: c in r.currencies ==>
          r.currencies[c] == if c in rest then user.currencies[c] else SpentCleared(user.currencies[c], span)
        decreases rest
      {
        var c :| c in rest;
        var info := r.currencies[c];
        if info.limitInfo.limit.span == span {
          r := r.(currencies := r.currencies[c := info.(limitInfo := info.limitInfo.(spent := 0))]);
        }
        rest := rest - {c};
      }
      assert r.currencies == EachAccount(user, SpentClearer(span)).currencies;
    }

    method ClearLimits(span: L.LimitSpan)
      modifies this`users
      ensures View() == EveryAccount(old(View()), SpentClearer(span))
    {
      var rest := users.Keys;
      while rest != {}
        invariant rest <= users.Keys == old(users).Keys
        invariant View() == old(View()).(users := users)
        invariant forall u :: u in users ==>
          users[u] == if u in rest then old(users)[u] else EachAccount(old(users)[u], SpentClearer(span))
        decreases rest
      {
        var u :| u in rest;
        var user := ClearSpent(users[u], span);
        users := users[u := user];
        rest := rest - {u};
      }
      assert users == EveryAccount(old(View()), SpentClearer(span)).users;
    }

    // ---------- Exchanges ----------

    method AddExchangeRequest(r: X.ExchangeOrderUpd) returns (done: Result<(), StateUpdateErr>)
      modifies this`users
      ensures Did(old(View()), View(), done, OrderRequested(old(View()), r))
    {
      done := CheckAccount(r.user, r.currencyFrom);
      if done.Err? {
        return;
      }
      var info := users[r.user].currencies[r.currencyFrom];
      var balance := ComputeBalance(info, false);
      if balance < r.amountFrom {
        return Err(InsufficientFunds(r.user, r.currencyFrom));
      }
      PutAccount(r.user, r.currencyFrom, info.(exchangeRequests := info.exchangeRequests[r.id := X.NewOrder(r)]));
    }

    /** First half of a decision; true if the amount bought is still to be added. */
    method ApplyExchangeDecision(d: X.ExchangeDecision) returns (r: Result<bool, StateUpdateErr>)
      modifies this`users, exchangeState
      ensures match OrderDecided(old(View()), d)
        case Ok(half) => r == Ok(half.1) && View() == half.0
        case Err(e) => r == Err(e) && View() == old(View())
    {
      var found := CheckAccount(d.user, d.currencyFrom);
      if found.Err? {
        return Err(found.error);
      }
      var info := users[d.user].currencies[d.currencyFrom];
      if d.id !in info.exchangeRequests {
        return Err(UserMissingExchange(d.user, d.currencyFrom));
      }
      var exchange, completed := info.exchangeRequests[d.id], false;
      match exchange.status {
        case Completed => return Err(ExchangeAlreadyConfirmed);
        case Rejected => return Err(ExchangeAlreadyRejected);
        case InProgress(confirmations, rejections) =>
          match d.decision {
            case Confirm =>
              if exchange.HasConfirmed(d.publicKey) {
                return Err(ExchangeAlreadyConfirmed);
              }
              exchange := exchange.(confirmations := exchange.confirmations + [d.Signed()]);
              if confirmations + 1 - rejections >= X.EXCHANGE_NUMBER_OF_CONFIRMATIONS {
                exchange := exchange.(status := X.Completed);
                exchangeState.ProcessOrder(exchange.ToUpd());
                completed := true;
              } else {
                exchange := exchange.(status := X.InProgress(confirmations + 1, rejections));
              }
            case Reject =>
              if exchange.HasRejected(d.publicKey) {
                return Err(ExchangeAlreadyRejected);
              }
              exchange := exchange.(confirmations := exchange.confirmations + [d.Signed()]);
              if rejections + 1 - confirmations >= X.EXCHANGE_NUMBER_OF_CONFIRMATIONS {
                exchange := exchange.(status := X.Rejected);
              } else {
                exchange := exchange.(status := X.InProgress(confirmations, rejections + 1));
              }
          }
      }
      PutAccount(d.user, d.currencyFrom, info.(exchangeRequests := info.exchangeRequests[d.id := exchange]));
      return Ok(completed);
    }

    method AddIncomingExchange(d: X.ExchangeDecision) returns (r: Result<(), StateUpdateErr>)
      modifies this`users
      ensures Did(old(View()), View(), r, IncomingAdded(old(View()), d))
    {
      r := CheckAccount(d.user, d.currencyTo);
      if r.Err? {
        return;
      }
      var info := users[d.user].currencies[d.currencyTo];
      PutAccount(d.user, d.currencyTo,
        info.(incomingExchangeRequests := info.incomingExchangeRequests[d.id := d.amountTo]));
    }

    /**
     Both halves of a decision. When the second half fails the first is not undone here:
     the ledger is left half-way, and it is the caller who must discard it.
     */
    method WithExchangeDecision(d: X.ExchangeDecision) returns (r: Result<(), StateUpdateErr>)
      modifies this`users, exchangeState
      ensures match OrderSettled(old(View()), d)
        case Ok(s) => r == Ok(()) && View() == s
        case Err(e) =>
          && r == Err(e)
          && View() == match OrderDecided(old(View()), d) { case Ok(half) => half.0 case Err(_) => old(View()) }
    {
      var half := ApplyExchangeDecision(d);
      if half.Err? {
        return Err(half.error);
      }
      if half.value {
        r := AddIncomingExchange(d);
      } else {
        r := Ok(());
      }
    }

    // ---------- The update entry point ----------

    /** The handlers that edit a user's settings. */
    method HandleSettings(body: UpdateBody) returns (done: Result<(), StateUpdateErr>)
      requires IsSettings(body)
      modifies this`users
      ensures Did(old(View()), View(), done, SettingsChanged(old(View()), body))
    {
      match body {
        case SetLanguage(u, l) => done := SetLanguage(u, l);
        case ConfigUpdate(d) => done := UpdateUserConfig(d);
        case PasswordChange(u, p) => done := ChangePassword(u, p);
        case SetPublicKey(u, k) => done := SetUserPublicKey(u, k);
      }
    }

    /** The handlers about limits. */
    method HandleLimits(body: UpdateBody, newId: Uuid, clock: string) returns (done: Result<(), StateUpdateErr>)
      requires AboutLimits(body)
      modifies this`users
      ensures Did(old(View()), View(), done, LimitsHandled(old(View()), body, Nondet(newId, clock, None, None)))
    {
      match body {
        case LimitsChangeRequest(q) => done := InsertLimitsReq(q, newId, clock);
        case CancelLimitChange(q) => done := CancelLimitChange(q);
        case LimitChangeDecision(d) => done := WithLimitChangeDecision(d);
      }
    }

    /** The handlers for one user, or for the invites. */
    method HandleUserUpdate(upd: StateUpdate, newId: Uuid, clock: string) returns (done: Result<(), StateUpdateErr>)
      requires AboutUsers(upd.body)
      modifies this`users, this`invites
      ensures Did(old(View()), View(), done,
        HandleUser(old(View()), upd.created, upd.body, Nondet(newId, clock, None, None)))
    {
      if IsSettings(upd.body) {
        done := HandleSettings(upd.body);
      } else if AboutLimits(upd.body) {
        done := HandleLimits(upd.body, newId, clock);
      } else {
        match upd.body {
          case Signup(i) => done := WithSignup(upd.created, i);
          case DepositAddress(u, a) => done := WithDepositAddress(u, a);
          case UpdateTokens(t) => done := UpdateTokens(t);
          case GenInvite(i) => done := GenInvite(i);
        }
      }
    }

    /** The handlers that move money, set the chain state, or replace everything. */
    method HandleOtherUpdate(upd: StateUpdate, newId: Uuid, clock: string)
      returns (r: Result<Option<UpdateResult>, StateUpdateErr>, ghost nd: Nondet)
      requires !AboutUsers(upd.body)
      modifies this, exchangeState
      ensures exchangeState == old(exchangeState) || fresh(exchangeState)
      ensures Admissible(old(View()), upd.body, nd)
      ensures nd.limitId == newId && nd.limitCreatedAt == clock
      ensures match HandleOther(old(View()), upd.created, upd.body, nd)
        case Ok(o) => r == Ok(o.result) && View() == o.state
        case Err(e) => r == Err(e) && (!upd.body.ExchangeDecision? ==> View() == old(View()))
    {
      nd := Nondet(newId, clock, None, None);
      var done: Result<(), StateUpdateErr> := Ok(());
      match upd.body {
        case Snapshot(s) =>
          users, lastChanged, btcState, invites := s.users, s.lastChanged, s.btcState, s.invites;
          exchangeState := new X.ExchangeWallet(s.exchangeState);
        case CreateWithdrawalRequest(w) =>
          r := WithNewWithdrawalRequest(upd.created, w);
          return;
        case WithdrawalRequestDecision(d) =>
          r := WithWithdrawalRequestDecision(d);
          return;
        case WithdrawalRequestComplete(i) => SetRequestStatus(i.id, i.Status());
        case WithdrawalRequestNodeRejected(i) => SetRequestStatus(i.id, W.NodeRejected(i.reason));
        case BestBtcBlock(b) => btcState := b;
        case UpdateBtcTx(tx) => nd := WithBtcTxUpdate(tx, newId, clock);
        case CancelBtcTx(c) => nd := WithBtcTxCancel(c, newId, clock);
        case ClearLimits(span) => ClearLimits(span);
        case ExchangeRequest(q) => done := AddExchangeRequest(q);
        case ExchangeDecision(d) => done := WithExchangeDecision(d);
        case ExchangeAddress(a) => exchangeState.SetAddress(a);
      }
      r := if done.Ok? then Ok(None) else Err(done.error);
    }

    /**
     `apply_update`. The new limit id and the clock reading are inputs; the returned ghost
     choice also records what the searches found. On an error nothing has changed, except
     after a half-applied exchange decision.
     */
    method ApplyUpdate(upd: StateUpdate, newId: Uuid, clock: string)
      returns (r: Result<Option<UpdateResult>, StateUpdateErr>, ghost nd: Nondet)
      modifies this, exchangeState
      ensures exchangeState == old(exchangeState) || fresh(exchangeState)
      ensures Admissible(old(View()), upd.body, nd)
      ensures nd.limitId == newId && nd.limitCreatedAt == clock
      ensures match Apply(old(View()), upd, nd)
        case Ok(o) => r == Ok(o.result) && View() == o.state
        case Err(e) => r == Err(e) && (!upd.body.ExchangeDecision? ==> View() == old(View()))
    {
      if AboutUsers(upd.body) {
        nd := Nondet(newId, clock, None, None);
        var done := HandleUserUpdate(upd, newId, clock);
        r := if done.Ok? then Ok(None) else Err(done.error);
      } else {
        r, nd := HandleOtherUpdate(upd, newId, clock);
      }
      if r.Ok? {
        lastChanged := upd.created;
      }
    }
  }
}
