/**
 The persisted log rebuilds the live state.

 The worker applies each update to a copy of the state, stores it, and only then commits
 the copy. Reading the log back and folding it gives the worker's state again, up to the
 fresh ids and clock readings inside limit requests and the initial time stamp; and it is
 enough to read back to the newest snapshot.
 */
module Replay {
  import opened Domain
  import opened Collections
  import opened Accounts
  import opened Updates
  import opened StateMachine
  import opened Invariants
  import T = Transactions
  import W = Withdrawals
  import L = Limits
  import X = Exchanges

  // ---------- States that differ in nothing the ledger reads ----------

  function Anonymous(d: L.LimitChangeData): L.LimitChangeData {
    d.(id := 0, createdAt := "")
  }

  ghost predicate SameLimits(a: map<Currency, L.LimitChangeData>, b: map<Currency, L.LimitChangeData>) {
    a.Keys == b.Keys && forall c :: c in a ==> Anonymous(a[c]) == Anonymous(b[c])
  }

  ghost predicate SameUser(a: UserInfo, b: UserInfo) {
    b == a.(limitChangeRequests := b.limitChangeRequests) && SameLimits(a.limitChangeRequests, b.limitChangeRequests)
  }

  /** Equal but for limit-request ids and times, and the time stamp. */
  ghost predicate Equivalent(s: State, t: State) {
    && s.users.Keys == t.users.Keys
    && (forall u :: u in s.users ==> SameUser(s.users[u], t.users[u]))
    && t == s.(users := t.users, lastChanged := t.lastChanged)
  }

  ghost predicate SameOutcome(a: Result<Outcome, StateUpdateErr>, b: Result<Outcome, StateUpdateErr>) {
    match (a, b)
    case (Ok(x), Ok(y)) => Equivalent(x.state, y.state) && x.result == y.result
    case (Err(e), Err(f)) => e == f
    case _ => false
  }

  ghost predicate SameResult(a: Result<State, StateUpdateErr>, b: Result<State, StateUpdateErr>) {
    match (a, b)
    case (Ok(s), Ok(t)) => Equivalent(s, t)
    case (Err(e), Err(f)) => e == f
    case _ => false
  }

  lemma EquivalentRefl(s: State)
    ensures Equivalent(s, s)
  {}

  lemma EquivalentSym(s: State, t: State)
    requires Equivalent(s, t)
    ensures Equivalent(t, s)
  {}

  // ---------- No handler reads the difference ----------

  lemma SetUserSame(s: State, t: State, u: UserId, a: UserInfo, b: UserInfo)
    requires Equivalent(s, t) && SameUser(a, b)
    ensures Equivalent(SetUser(s, u, a), SetUser(t, u, b))
  {}

  lemma SameAccounts(s: State, t: State, u: UserId, c: Currency)
    requires Equivalent(s, t)
    ensures GetAccount(s, u, c) == GetAccount(t, u, c)
    ensures u in s.users ==> SameUser(s.users[u], t.users[u])
  {}

  lemma SetAccountSame(s: State, t: State, u: UserId, c: Currency, info: UserCurrencyInfo)
    requires Equivalent(s, t) && u in s.users
    ensures Equivalent(SetAccount(s, u, c, info), SetAccount(t, u, c, info))
  {}

  lemma EveryAccountSame(s: State, t: State, f: UserCurrencyInfo -> UserCurrencyInfo)
    requires Equivalent(s, t)
    ensures Equivalent(EveryAccount(s, f), EveryAccount(t, f))
  {}

  lemma SignedUpSame(s: State, t: State, created: Time, i: SignupInfo)
    requires Equivalent(s, t)
    ensures SameResult(SignedUp(s, created, i), SignedUp(t, created, i))
  {}

  lemma DepositAddressAddedSame(s: State, t: State, u: UserId, a: CurrencyAddress)
    requires Equivalent(s, t)
    ensures SameResult(DepositAddressAdded(s, u, a), DepositAddressAdded(t, u, a))
  {}

  /** Settings are edited in place; limit requests are not touched. */
  lemma SettingsSame(s: State, t: State, body: UpdateBody)
    requires Equivalent(s, t) && IsSettings(body)
    ensures SameResult(SettingsChanged(s, body), SettingsChanged(t, body))
  {
    var u := SettingsUser(body);
    SameAccounts(s, t, u, BTC);
    if u in s.users {
      EditedSame(s.users[u], t.users[u], body);
      SetUserSame(s, t, u, WithSettings(s.users[u], body), WithSettings(t.users[u], body));
    }
  }

  lemma EditedSame(a: UserInfo, b: UserInfo, body: UpdateBody)
    requires SameUser(a, b) && IsSettings(body)
    ensures SameUser(WithSettings(a, body), WithSettings(b, body))
  {}

  lemma TokensUpdatedSame(s: State, t: State, tok: TokenUpdate)
    requires Equivalent(s, t)
    ensures SameResult(TokensUpdated(s, tok), TokensUpdated(t, tok))
  {
    var c := ERC20(tok.token);
    SameAccounts(s, t, tok.user, c);
    if TokensUpdated(s, tok).Ok? {
      match tok.action {
        case Enable => SetAccountSame(s, t, tok.user, c, NewAccount(c));
        case Disable =>
          var a, b := TokensUpdated(s, tok).value.users[tok.user], TokensUpdated(t, tok).value.users[tok.user];
          SetUserSame(s, t, tok.user, a, b);
      }
    }
  }

  lemma WithdrawalCreatedSame(s: State, t: State, created: Time, w: W.WithdrawalRequestInfo)
    requires Equivalent(s, t)
    ensures SameOutcome(WithdrawalCreated(s, created, w), WithdrawalCreated(t, created, w))
  {
    hide Equivalent;
    var c := w.address.Currency();
    SameAccounts(s, t, w.user, c);
    if GetAccount(s, w.user, c).Ok? {
      var info, req := Account(s, w.user, c), W.NewRequest(created, w);
      SetAccountSame(s, t, w.user, c, info.(withdrawalRequests := info.withdrawalRequests[w.id := req]));
    }
  }

  lemma WithdrawalVotedSame(s: State, t: State, d: W.WithdrawalRequestDecisionInfo)
    requires Equivalent(s, t)
    ensures SameOutcome(WithdrawalVoted(s, d), WithdrawalVoted(t, d))
  {}

  lemma LimitRequestedSame(s: State, t: State, r: L.LimitChangeUpd, nd: Nondet, nd': Nondet)
    requires Equivalent(s, t)
    ensures SameResult(LimitRequested(s, r, nd), LimitRequested(t, r, nd'))
  {
    SameAccounts(s, t, r.user, r.currency);
    if LimitRequested(s, r, nd).Ok? {
      var a, b := LimitRequested(s, r, nd).value.users[r.user], LimitRequested(t, r, nd').value.users[r.user];
      SetUserSame(s, t, r.user, a, b);
    }
  }

  lemma LimitCancelledSame(s: State, t: State, r: L.LimitCancelData)
    requires Equivalent(s, t)
    ensures SameResult(LimitCancelled(s, r), LimitCancelled(t, r))
  {}

  /** A decision depends on the request's status and signatures only, and passes the rest through. */
  lemma DecideLimitSame(a: L.LimitChangeData, b: L.LimitChangeData, d: L.LimitChangeDecision)
    requires Anonymous(a) == Anonymous(b)
    ensures match (L.DecideLimit(a, d), L.DecideLimit(b, d))
      case (Ok(Pending(x)), Ok(Pending(y))) => Anonymous(x) == Anonymous(y)
      case (r, q) => r == q
  {}

  lemma LimitVotedSame(s: State, t: State, d: L.LimitChangeDecision)
    requires Equivalent(s, t)
    ensures SameResult(LimitVoted(s, d), LimitVoted(t, d))
  {
    SameAccounts(s, t, d.user, d.currency);
    if d.user in s.users && d.currency in s.users[d.user].limitChangeRequests {
      DecideLimitSame(s.users[d.user].limitChangeRequests[d.currency],
        t.users[d.user].limitChangeRequests[d.currency], d);
      if LimitVoted(s, d).Ok? {
        var a, b := LimitVoted(s, d).value.users[d.user], LimitVoted(t, d).value.users[d.user];
        SetUserSame(s, t, d.user, a, b);
      }
    }
  }

  lemma OrderRequestedSame(s: State, t: State, r: X.ExchangeOrderUpd)
    requires Equivalent(s, t)
    ensures SameResult(OrderRequested(s, r), OrderRequested(t, r))
  {
    SameAccounts(s, t, r.user, r.currencyFrom);
    if OrderRequested(s, r).Ok? {
      SetAccountSame(s, t, r.user, r.currencyFrom, Account(OrderRequested(s, r).value, r.user, r.currencyFrom));
    }
  }

  lemma OrderDecidedSame(s: State, t: State, d: X.ExchangeDecision)
    requires Equivalent(s, t)
    ensures match (OrderDecided(s, d), OrderDecided(t, d))
      case (Ok(x), Ok(y)) => Equivalent(x.0, y.0) && x.1 == y.1
      case (Err(e), Err(f)) => e == f
      case _ => false
  {
    SameAccounts(s, t, d.user, d.currencyFrom);
    if OrderDecided(s, d).Ok? {
      SetAccountSame(s, t, d.user, d.currencyFrom, Account(OrderDecided(s, d).value.0, d.user, d.currencyFrom));
    }
  }

  lemma IncomingAddedSame(s: State, t: State, d: X.ExchangeDecision)
    requires Equivalent(s, t)
    ensures SameResult(IncomingAdded(s, d), IncomingAdded(t, d))
  {}

  lemma OrderSettledSame(s: State, t: State, d: X.ExchangeDecision)
    requires Equivalent(s, t)
    ensures SameResult(OrderSettled(s, d), OrderSettled(t, d))
  {
    OrderDecidedSame(s, t, d);
    if OrderDecided(s, d).Ok? && OrderDecided(s, d).value.1 {
      IncomingAddedSame(OrderDecided(s, d).value.0, OrderDecided(t, d).value.0, d);
    }
  }

  // ---------- Searches: determined when there is only one thing to find ----------

  /** At most one user owns the address, and at most one withdrawal was completed by the transaction. */
  ghost predicate Unambiguous(s: State, body: UpdateBody) {
    match body
    case UpdateBtcTx(tx) => OneOwner(s, BtcAddress(tx.address))
    case CancelBtcTx(c) => OneOwner(s, BtcAddress(c.address)) && OneCompleted(s, BtcTxId(c.txid))
    case _ => true
  }

  ghost predicate OneOwner(s: State, a: CurrencyAddress) {
    forall u, v :: OwnsAddress(s, u, a) && OwnsAddress(s, v, a) ==> u == v
  }

  ghost predicate OneCompleted(s: State, txid: CurrencyTxId) {
    forall u, v, i, j :: CompletedIn(s, u, txid, i) && CompletedIn(s, v, txid, j) ==> i == j
  }

  lemma SameOwners(s: State, t: State, u: UserId, a: CurrencyAddress)
    requires Equivalent(s, t)
    ensures OwnsAddress(s, u, a) <==> OwnsAddress(t, u, a)
  {}

  lemma SameCompleted(s: State, t: State, u: UserId, txid: CurrencyTxId, id: Uuid)
    requires Equivalent(s, t)
    ensures CompletedIn(s, u, txid, id) <==> CompletedIn(t, u, txid, id)
  {}

  lemma OwnerDetermined(s: State, t: State, a: CurrencyAddress, nd: Nondet, nd': Nondet)
    requires Equivalent(s, t) && OneOwner(s, a) && AdmissibleOwner(s, a, nd) && AdmissibleOwner(t, a, nd')
    ensures FindUserAddress(s, a, nd) == FindUserAddress(t, a, nd')
  {
    forall u ensures OwnsAddress(s, u, a) <==> OwnsAddress(t, u, a) {
      SameOwners(s, t, u, a);
    }
    var x, y := FindUserAddress(s, a, nd), FindUserAddress(t, a, nd');
    if x.Some? {
      assert OwnsAddress(s, x.value, a) && OwnsAddress(t, x.value, a);
    }
    if y.Some? {
      assert OwnsAddress(t, y.value, a) && OwnsAddress(s, y.value, a);
    }
  }

  lemma FoundInBoth(s: State, t: State, txid: CurrencyTxId, nd: Nondet, nd': Nondet)
    requires Equivalent(s, t) && OneCompleted(s, txid) && AdmissibleCompleted(t, txid, nd')
    ensures FindWithdrawal(s, txid, nd).Some? ==> FindWithdrawal(t, txid, nd') == FindWithdrawal(s, txid, nd)
    ensures OneCompleted(t, txid)
  {
    forall u, id ensures CompletedIn(s, u, txid, id) <==> CompletedIn(t, u, txid, id) {
      SameCompleted(s, t, u, txid, id);
    }
    var x, y := FindWithdrawal(s, txid, nd), FindWithdrawal(t, txid, nd');
    if x.Some? {
      var u :| CompletedIn(s, u, txid, x.value);
      assert CompletedIn(t, u, txid, x.value);
      assert y.Some?;
      var v :| CompletedIn(t, v, txid, y.value);
      assert CompletedIn(s, v, txid, y.value);
    }
  }

  lemma CompletedDetermined(s: State, t: State, txid: CurrencyTxId, nd: Nondet, nd': Nondet)
    requires Equivalent(s, t) && OneCompleted(s, txid) && AdmissibleCompleted(s, txid, nd)
      && AdmissibleCompleted(t, txid, nd')
    ensures FindWithdrawal(s, txid, nd) == FindWithdrawal(t, txid, nd')
  {
    FoundInBoth(s, t, txid, nd, nd');
    EquivalentSym(s, t);
    FoundInBoth(t, s, txid, nd', nd);
  }

  lemma BtcTxUpdatedSame(s: State, t: State, tx: T.BtcTransaction, nd: Nondet, nd': Nondet)
    requires Equivalent(s, t) && Unambiguous(s, UpdateBtcTx(tx))
    requires Admissible(s, UpdateBtcTx(tx), nd) && Admissible(t, UpdateBtcTx(tx), nd')
    ensures Equivalent(BtcTxUpdated(s, tx, nd), BtcTxUpdated(t, tx, nd'))
  {
    var a := BtcAddress(tx.address);
    if !IsExchangeAddress(s, a) {
      OwnerDetermined(s, t, a, nd, nd');
      var owner := FindUserAddress(s, a, nd);
      if owner.Some? {
        SameAccounts(s, t, owner.value, BTC);
        var info := Account(s, owner.value, BTC);
        SetAccountSame(s, t, owner.value, BTC, info.(transactions := T.Upsert(info.transactions, tx)));
      }
    }
  }

  lemma DepositDroppedSame(s: State, t: State, cancel: T.TxCancel, nd: Nondet, nd': Nondet)
    requires Equivalent(s, t)
      && FindUserAddress(s, BtcAddress(cancel.address), nd) == FindUserAddress(t, BtcAddress(cancel.address), nd')
    ensures Equivalent(DepositDropped(s, cancel, nd), DepositDropped(t, cancel, nd'))
  {}

  /** Dropping a deposit leaves every withdrawal where it was. */
  lemma DroppedKeepsCompleted(s: State, cancel: T.TxCancel, nd: Nondet, u: UserId, txid: CurrencyTxId, id: Uuid)
    ensures CompletedIn(DepositDropped(s, cancel, nd), u, txid, id) <==> CompletedIn(s, u, txid, id)
  {}

  lemma BtcTxCancelledSame(s: State, t: State, cancel: T.TxCancel, nd: Nondet, nd': Nondet)
    requires Equivalent(s, t) && Unambiguous(s, CancelBtcTx(cancel))
    requires Admissible(s, CancelBtcTx(cancel), nd) && Admissible(t, CancelBtcTx(cancel), nd')
    ensures Equivalent(BtcTxCancelled(s, cancel, nd), BtcTxCancelled(t, cancel, nd'))
  {
    var a, txid := BtcAddress(cancel.address), BtcTxId(cancel.txid);
    if !IsExchangeAddress(s, a) {
      OwnerDetermined(s, t, a, nd, nd');
      DepositDroppedSame(s, t, cancel, nd, nd');
      var s', t' := DepositDropped(s, cancel, nd), DepositDropped(t, cancel, nd');
      forall u, v, i, j | CompletedIn(s', u, txid, i) && CompletedIn(s', v, txid, j) ensures i == j {
        DroppedKeepsCompleted(s, cancel, nd, u, txid, i);
        DroppedKeepsCompleted(s, cancel, nd, v, txid, j);
      }
      CompletedDetermined(s', t', txid, nd, nd');
      var id := FindWithdrawal(s', txid, nd);
      if id.Some? {
        EveryAccountSame(s', t', StatusSetter(id.value, W.NodeRejected("Tx canceled")));
      }
    }
  }

  /** Equivalent states answer every update alike and stay equivalent, whatever ids, clocks and finds each one met. */
  lemma StepSame(s: State, t: State, upd: StateUpdate, nd: Nondet, nd': Nondet)
    requires Equivalent(s, t) && Unambiguous(s, upd.body) && Admissible(s, upd.body, nd) && Admissible(t, upd.body, nd')
    ensures SameOutcome(Apply(s, upd, nd), Apply(t, upd, nd'))
    ensures Apply(s, upd, nd).Ok?
      ==> Apply(s, upd, nd).value.state.lastChanged == Apply(t, upd, nd').value.state.lastChanged
  {
    HandleSame(s, t, upd, nd, nd');
  }

  /**
   Uniqueness of addresses is needed: when two users own an address, a deposit to it that
   the first does not have yet may be credited to either, and the two outcomes differ.
   */
  lemma SharedAddressDiverges(s: State, tx: T.BtcTransaction, u: UserId, v: UserId, nd: Nondet)
    requires var a := BtcAddress(tx.address);
      OwnsAddress(s, u, a) && OwnsAddress(s, v, a) && u != v && !IsExchangeAddress(s, a)
    requires tx.amount >= 0 && T.Lookup(Account(s, u, BTC).transactions, tx.Key()) != Some(tx)
    ensures var toU, toV := nd.(owner := Some(u)), nd.(owner := Some(v));
      && Admissible(s, UpdateBtcTx(tx), toU) && Admissible(s, UpdateBtcTx(tx), toV)
      && !Equivalent(BtcTxUpdated(s, tx, toU), BtcTxUpdated(s, tx, toV))
  {
    var s1, s2 := BtcTxUpdated(s, tx, nd.(owner := Some(u))), BtcTxUpdated(s, tx, nd.(owner := Some(v)));
    T.UpsertRefines(Account(s, u, BTC).transactions, tx, tx.Key());
    assert T.Lookup(Account(s1, u, BTC).transactions, tx.Key()) == Some(tx);
    assert Account(s2, u, BTC) == Account(s, u, BTC);
    if Equivalent(s1, s2) {
      SameAccounts(s1, s2, u, BTC);
    }
  }

  lemma EachAccountMapped(s: State, f: UserCurrencyInfo -> UserCurrencyInfo, u: UserId, c: Currency)
    requires Has(s, u, c)
    ensures Has(EveryAccount(s, f), u, c) && Account(EveryAccount(s, f), u, c) == f(Account(s, u, c))
  {}

  /** A completed withdrawal is stored under its own id. */
  lemma CompletedIsStored(s: State, u: UserId, txid: CurrencyTxId, id: Uuid)
    requires StateOk(s) && CompletedIn(s, u, txid, id)
    ensures Has(s, u, txid.Currency()) && id in Account(s, u, txid.Currency()).withdrawalRequests
    ensures Account(s, u, txid.Currency()).withdrawalRequests[id].status.Completed?
  {
    var info := Account(s, u, txid.Currency());
    assert UserOk(u, s.users[u]) && AccountOk(u, txid.Currency(), info);
    var k :| k in info.withdrawalRequests && info.withdrawalRequests[k].id == id
      && info.withdrawalRequests[k].status.Completed? && info.withdrawalRequests[k].status.txid == txid;
    assert RequestOk(u, txid.Currency(), k, info.withdrawalRequests[k]);
  }

  /** Rejecting one completed withdrawal or another leads to different states. */
  lemma RejectingDiffers(s: State, u: UserId, c: Currency, i: Uuid, j: Uuid, status: W.WithdrawalRequestStatus)
    requires Has(s, u, c) && i in Account(s, u, c).withdrawalRequests && i != j
    requires Account(s, u, c).withdrawalRequests[i].status != status
    ensures !Equivalent(StatusSet(s, i, status), StatusSet(s, j, status))
  {
    EachAccountMapped(s, StatusSetter(i, status), u, c);
    EachAccountMapped(s, StatusSetter(j, status), u, c);
    var s1, s2 := StatusSet(s, i, status), StatusSet(s, j, status);
    var info := Account(s, u, c);
    assert Account(s1, u, c).withdrawalRequests[i].status == status;
    assert WithStatus(info, j, status).withdrawalRequests[i] == info.withdrawalRequests[i];
    if Equivalent(s1, s2) {
      SameAccounts(s1, s2, u, c);
    }
  }

  /** Any withdrawal the transaction completed is a possible find, and is then the one rejected. */
  lemma CancelRejects(s: State, cancel: T.TxCancel, u: UserId, id: Uuid, nd: Nondet)
    requires !IsExchangeAddress(s, BtcAddress(cancel.address)) && AdmissibleOwner(s, BtcAddress(cancel.address), nd)
    requires CompletedIn(s, u, BtcTxId(cancel.txid), id)
    ensures var pick := nd.(completed := Some(id));
      && Admissible(s, CancelBtcTx(cancel), pick)
      && BtcTxCancelled(s, cancel, pick)
        == StatusSet(DepositDropped(s, cancel, nd), id, W.NodeRejected("Tx canceled"))
  {
    hide CompletedIn, OwnsAddress, StatusSet;
    var pick, txid := nd.(completed := Some(id)), BtcTxId(cancel.txid);
    var middle := DepositDropped(s, cancel, nd);
    assert DepositDropped(s, cancel, pick) == middle;
    DroppedKeepsCompleted(s, cancel, nd, u, txid, id);
    assert FindWithdrawal(middle, txid, pick) == Some(id);
  }

  /**
   Uniqueness of the completing transaction is needed too: when it completed two withdrawals,
   cancelling it may reject either, and the two outcomes differ.
   */
  lemma SharedTransactionDiverges(s: State, cancel: T.TxCancel, u: UserId, v: UserId, i: Uuid, j: Uuid, nd: Nondet)
    requires StateOk(s) && !IsExchangeAddress(s, BtcAddress(cancel.address))
    requires AdmissibleOwner(s, BtcAddress(cancel.address), nd)
    requires CompletedIn(s, u, BtcTxId(cancel.txid), i) && CompletedIn(s, v, BtcTxId(cancel.txid), j) && i != j
    ensures var toI, toJ := nd.(completed := Some(i)), nd.(completed := Some(j));
      && Admissible(s, CancelBtcTx(cancel), toI) && Admissible(s, CancelBtcTx(cancel), toJ)
      && !Equivalent(BtcTxCancelled(s, cancel, toI), BtcTxCancelled(s, cancel, toJ))
  {
    hide CompletedIn, OwnsAddress, StatusSet, DepositDropped, BtcTxCancelled, Equivalent, Admissible, StateOk;
    var middle := DepositDropped(s, cancel, nd);
    CancelRejects(s, cancel, u, i, nd);
    CancelRejects(s, cancel, v, j, nd);
    DroppedKeepsCompleted(s, cancel, nd, u, BtcTxId(cancel.txid), i);
    DepositDroppedOk(s, cancel, nd);
    CompletedIsStored(middle, u, BtcTxId(cancel.txid), i);
    RejectingDiffers(middle, u, BTC, i, j, W.NodeRejected("Tx canceled"));
  }

  lemma InviteGeneratedSame(s: State, t: State, i: InviteRec)
    requires Equivalent(s, t)
    ensures SameResult(InviteGenerated(s, i), InviteGenerated(t, i))
  {}

  lemma LimitsSame(s: State, t: State, body: UpdateBody, nd: Nondet, nd': Nondet)
    requires Equivalent(s, t) && AboutLimits(body)
    ensures SameResult(LimitsHandled(s, body, nd), LimitsHandled(t, body, nd'))
  {
    match body {
      case LimitsChangeRequest(r) => LimitRequestedSame(s, t, r, nd, nd');
      case CancelLimitChange(r) => LimitCancelledSame(s, t, r);
      case LimitChangeDecision(d) => LimitVotedSame(s, t, d);
    }
  }

  lemma UserStepSame(s: State, t: State, upd: StateUpdate, nd: Nondet, nd': Nondet)
    requires Equivalent(s, t) && AboutUsers(upd.body)
    ensures SameResult(HandleUser(s, upd.created, upd.body, nd), HandleUser(t, upd.created, upd.body, nd'))
  {
    if IsSettings(upd.body) {
      SettingsSame(s, t, upd.body);
    } else if AboutLimits(upd.body) {
      LimitsSame(s, t, upd.body, nd, nd');
    } else {
      match upd.body {
        case Signup(i) => SignedUpSame(s, t, upd.created, i);
        case DepositAddress(u, a) => DepositAddressAddedSame(s, t, u, a);
        case UpdateTokens(tok) => TokensUpdatedSame(s, t, tok);
        case GenInvite(i) => InviteGeneratedSame(s, t, i);
      }
    }
  }

  lemma OtherStepSame(s: State, t: State, upd: StateUpdate, nd: Nondet, nd': Nondet)
    requires Equivalent(s, t) && Unambiguous(s, upd.body) && Admissible(s, upd.body, nd) && Admissible(t, upd.body, nd')
    requires !AboutUsers(upd.body)
    ensures SameOutcome(HandleOther(s, upd.created, upd.body, nd), HandleOther(t, upd.created, upd.body, nd'))
  {
    match upd.body {
      case Snapshot(v) => EquivalentRefl(v);
      case CreateWithdrawalRequest(w) => WithdrawalCreatedSame(s, t, upd.created, w);
      case WithdrawalRequestDecision(d) => WithdrawalVotedSame(s, t, d);
      case WithdrawalRequestComplete(i) => EveryAccountSame(s, t, StatusSetter(i.id, i.Status()));
      case WithdrawalRequestNodeRejected(i) => EveryAccountSame(s, t, StatusSetter(i.id, W.NodeRejected(i.reason)));
      case UpdateBtcTx(tx) => BtcTxUpdatedSame(s, t, tx, nd, nd');
      case CancelBtcTx(c) => BtcTxCancelledSame(s, t, c, nd, nd');
      case ClearLimits(span) => EveryAccountSame(s, t, SpentClearer(span));
      case ExchangeRequest(r) => OrderRequestedSame(s, t, r);
      case ExchangeDecision(d) => OrderSettledSame(s, t, d);
      case BestBtcBlock(_) =>
      case ExchangeAddress(_) =>
    }
  }

  lemma HandleSame(s: State, t: State, upd: StateUpdate, nd: Nondet, nd': Nondet)
    requires Equivalent(s, t) && Unambiguous(s, upd.body) && Admissible(s, upd.body, nd) && Admissible(t, upd.body, nd')
    ensures SameOutcome(Handle(s, upd.created, upd.body, nd), Handle(t, upd.created, upd.body, nd'))
  {
    if AboutUsers(upd.body) {
      UserStepSame(s, t, upd, nd, nd');
    } else {
      OtherStepSame(s, t, upd, nd, nd');
    }
  }

  // ---------- Folding a log ----------

  /** `collect`: apply the updates in order, stopping at the first error. */
  ghost function Collect(s0: State, log: seq<StateUpdate>, nds: seq<Nondet>): Result<State, StateUpdateErr>
    requires |nds| == |log|
  {
    if log == [] then Ok(s0)
    else
      var n := |log| - 1;
      var s :- Collect(s0, log[..n], nds[..n]);
      var o :- Apply(s, log[n], nds[n]);
      Ok(o.state)
  }

  /** Every search of the fold found what it could have found. */
  ghost predicate AdmissibleAlong(s0: State, log: seq<StateUpdate>, nds: seq<Nondet>)
    requires |nds| == |log|
  {
    log != [] ==>
      var n := |log| - 1;
      && AdmissibleAlong(s0, log[..n], nds[..n])
      && (Collect(s0, log[..n], nds[..n]).Ok?
        ==> Admissible(Collect(s0, log[..n], nds[..n]).value, log[n].body, nds[n]))
  }

  // ---------- The worker ----------

  /** An update as it reaches the worker: its searches, and whether the database accepts it. */
  datatype Inbound = Inbound(update: StateUpdate, nd: Nondet, stored: bool)

  datatype Committed = Committed(state: State, log: seq<StateUpdate>, responses: seq<UpdateResult>)

  /** Apply to a copy, store, commit; on either failure the copy is dropped. */
  ghost function Serve(w: Committed, i: Inbound): Committed {
    match Apply(w.state, i.update, i.nd)
    case Ok(o) =>
      if i.stored then
        Committed(o.state, w.log + [i.update], w.responses + if o.result.Some? then [o.result.value] else [])
      else w
    case Err(_) => w
  }

  ghost function ServeAll(w: Committed, inbox: seq<Inbound>): Committed {
    if inbox == [] then w else Serve(ServeAll(w, inbox[..|inbox| - 1]), inbox[|inbox| - 1])
  }

  /** The searches made for the updates that were committed. */
  ghost function Picks(w: Committed, inbox: seq<Inbound>): seq<Nondet> {
    if inbox == [] then []
    else
      var init, i := inbox[..|inbox| - 1], inbox[|inbox| - 1];
      Picks(w, init) + if Apply(ServeAll(w, init).state, i.update, i.nd).Ok? && i.stored then [i.nd] else []
  }

  /** The worker's own searches found what they could have found. */
  ghost predicate AdmissibleRun(w: Committed, inbox: seq<Inbound>) {
    inbox != [] ==>
      var init, i := inbox[..|inbox| - 1], inbox[|inbox| - 1];
      AdmissibleRun(w, init) && Admissible(ServeAll(w, init).state, i.update.body, i.nd)
  }

  /** Every search the updates make has at most one thing to find, in the state it is made in. */
  ghost predicate UnambiguousRun(w: Committed, inbox: seq<Inbound>) {
    inbox != [] ==>
      var init, i := inbox[..|inbox| - 1], inbox[|inbox| - 1];
      UnambiguousRun(w, init) && Unambiguous(ServeAll(w, init).state, i.update.body)
  }

  ghost predicate UnambiguousAlong(s0: State, log: seq<StateUpdate>, nds: seq<Nondet>)
    requires |nds| == |log|
  {
    log != [] ==>
      var n := |log| - 1;
      && UnambiguousAlong(s0, log[..n], nds[..n])
      && (Collect(s0, log[..n], nds[..n]).Ok? ==> Unambiguous(Collect(s0, log[..n], nds[..n]).value, log[n].body))
  }

  /** The worker's state is the fold of its log with the searches `nds`. */
  ghost predicate FoldOf(s0: State, w: Committed, nds: seq<Nondet>) {
    && |nds| == |w.log|
    && Collect(s0, w.log, nds) == Ok(w.state)
    && AdmissibleAlong(s0, w.log, nds)
    && UnambiguousAlong(s0, w.log, nds)
  }

  lemma ServeFolds(s0: State, w: Committed, nds: seq<Nondet>, i: Inbound)
    requires FoldOf(s0, w, nds)
    requires Unambiguous(w.state, i.update.body) && Admissible(w.state, i.update.body, i.nd)
    ensures FoldOf(s0, Serve(w, i), nds + if Apply(w.state, i.update, i.nd).Ok? && i.stored then [i.nd] else [])
  {
    hide Apply, Unambiguous, Admissible;
    var n, log, all := |w.log|, w.log + [i.update], nds + [i.nd];
    assert log[..n] == w.log && all[..n] == nds;
    assert nds + [] == nds;
  }

  /** Whatever is refused or fails to be stored, the worker's state stays the fold of its log. */
  lemma {:induction false} WorkerFoldsItsLog(s0: State, w: Committed, nds: seq<Nondet>, inbox: seq<Inbound>)
    requires FoldOf(s0, w, nds) && UnambiguousRun(w, inbox) && AdmissibleRun(w, inbox)
    ensures FoldOf(s0, ServeAll(w, inbox), nds + Picks(w, inbox))
  {
    hide FoldOf, Apply, Unambiguous, Admissible;
    if inbox == [] {
      assert nds + [] == nds;
    } else {
      var init, i := inbox[..|inbox| - 1], inbox[|inbox| - 1];
      WorkerFoldsItsLog(s0, w, nds, init);
      ServeFolds(s0, ServeAll(w, init), nds + Picks(w, init), i);
      var more := if Apply(ServeAll(w, init).state, i.update, i.nd).Ok? && i.stored then [i.nd] else [];
      assert nds + Picks(w, init) + more == nds + (Picks(w, init) + more);
    }
  }

  /** A snapshot replaces the state, whatever it was. */
  lemma SnapshotReplaces(s: State, upd: StateUpdate, nd: Nondet)
    requires upd.body.Snapshot?
    ensures Apply(s, upd, nd) == Ok(Outcome(upd.body.snapshot.(lastChanged := upd.created), None))
  {}

  /** The second fold succeeds with an equivalent state, and the same time stamp once anything was folded. */
  ghost predicate Agrees(s: State, log: seq<StateUpdate>, again: Result<State, StateUpdateErr>) {
    again.Ok? && Equivalent(s, again.value) && (log != [] ==> again.value.lastChanged == s.lastChanged)
  }

  /**
   Two folds of one log agree, whatever fresh ids, clocks and admissible searches each one
   met, if they start equivalent or the log starts with a snapshot.
   */
  lemma {:induction false} FoldsAgree(s0: State, t0: State, log: seq<StateUpdate>, own: seq<Nondet>, nds: seq<Nondet>)
    requires |own| == |log| == |nds|
    requires Equivalent(s0, t0) || (log != [] && log[0].body.Snapshot?)
    requires Collect(s0, log, own).Ok? && AdmissibleAlong(s0, log, own) && UnambiguousAlong(s0, log, own)
    requires AdmissibleAlong(t0, log, nds)
    ensures log != [] || Equivalent(s0, t0) ==> Agrees(Collect(s0, log, own).value, log, Collect(t0, log, nds))
    decreases |log|
  {
    hide Apply, Unambiguous, Admissible, Equivalent;
    if log != [] {
      var n := |log| - 1;
      if n == 0 && log[0].body.Snapshot? {
        SnapshotReplaces(s0, log[0], own[0]);
        SnapshotReplaces(t0, log[0], nds[0]);
        EquivalentRefl(log[0].body.snapshot.(lastChanged := log[0].created));
      } else {
        FoldsAgree(s0, t0, log[..n], own[..n], nds[..n]);
        StepSame(Collect(s0, log[..n], own[..n]).value, Collect(t0, log[..n], nds[..n]).value, log[n], own[n], nds[n]);
      }
    }
  }

  /**
   After any sequence of updates, with refused updates and failed inserts anywhere, folding
   the persisted log succeeds and gives the worker's state, up to limit-request ids and
   times and the initial time stamp.
   */
  lemma ReplayRebuilds(network: Network, now: Time, later: Time, inbox: seq<Inbound>, nds: seq<Nondet>)
    requires var w0 := Committed(NewState(network, now), [], []); UnambiguousRun(w0, inbox) && AdmissibleRun(w0, inbox)
    requires var log := ServeAll(Committed(NewState(network, now), [], []), inbox).log;
      |nds| == |log| && AdmissibleAlong(NewState(network, later), log, nds)
    ensures var w := ServeAll(Committed(NewState(network, now), [], []), inbox);
      Agrees(w.state, w.log, Collect(NewState(network, later), w.log, nds))
  {
    var s0, t0 := NewState(network, now), NewState(network, later);
    assert Equivalent(s0, t0);
    ReplayFrom(s0, t0, inbox, nds);
  }

  lemma ReplayFrom(s0: State, t0: State, inbox: seq<Inbound>, nds: seq<Nondet>)
    requires Equivalent(s0, t0) && UnambiguousRun(Committed(s0, [], []), inbox)
      && AdmissibleRun(Committed(s0, [], []), inbox)
    requires var log := ServeAll(Committed(s0, [], []), inbox).log; |nds| == |log| && AdmissibleAlong(t0, log, nds)
    ensures var w := ServeAll(Committed(s0, [], []), inbox); Agrees(w.state, w.log, Collect(t0, w.log, nds))
  {
    var w0 := Committed(s0, [], []);
    WorkerFoldsItsLog(s0, w0, [], inbox);
    FoldsAgree(s0, t0, ServeAll(w0, inbox).log, [] + Picks(w0, inbox), nds);
  }

  // ---------- Reading back to the newest snapshot ----------

  /** The rows `query_updates` keeps, newest first: up to and including the first snapshot. */
  function UpToSnapshot(rows: seq<StateUpdate>): seq<StateUpdate> {
    if rows == [] then []
    else if rows[0].body.Snapshot? then [rows[0]]
    else [rows[0]] + UpToSnapshot(rows[1..])
  }

  method QueryUpdates(rows: seq<StateUpdate>) returns (parsed: seq<StateUpdate>)
    ensures parsed == UpToSnapshot(rows)
  {
    parsed := [];
    for i := 0 to |rows|
      invariant UpToSnapshot(rows) == parsed + UpToSnapshot(rows[i..])
    {
      var item := rows[i];
      assert rows[i..][0] == item && rows[i..][1..] == rows[i + 1..];
      parsed := parsed + [item];
      if item.body.Snapshot? {
        return;
      }
    }
  }

  function Reverse<T>(s: seq<T>): (r: seq<T>)
    ensures |r| == |s|
    ensures forall i :: 0 <= i < |s| ==> r[i] == s[|s| - 1 - i]
  {
    if s == [] then [] else Reverse(s[1..]) + [s[0]]
  }

  lemma ReverseAppend<T>(s: seq<T>, x: T)
    ensures Reverse(s + [x]) == [x] + Reverse(s)
  {}

  /** Where the kept part of a log, oldest first, begins. */
  function KeptFrom(log: seq<StateUpdate>): (k: nat)
    ensures k <= |log|
  {
    if log == [] then 0
    else if log[|log| - 1].body.Snapshot? then |log| - 1
    else KeptFrom(log[..|log| - 1])
  }

  lemma {:induction false} KeptIsSuffix(log: seq<StateUpdate>)
    ensures Reverse(UpToSnapshot(Reverse(log))) == log[KeptFrom(log)..]
  {
    if log != [] {
      var init, last := log[..|log| - 1], log[|log| - 1];
      assert log == init + [last];
      ReverseAppend(init, last);
      var rows := Reverse(log);
      assert rows[0] == last && rows[1..] == Reverse(init);
      if last.body.Snapshot? {
        assert Reverse([last]) == [last] == log[|log| - 1..];
      } else {
        KeptIsSuffix(init);
        var kept := UpToSnapshot(Reverse(init));
        assert [last] + kept == UpToSnapshot(rows);
        assert Reverse([last] + kept) == Reverse(kept) + [last];
        assert log[KeptFrom(log)..] == init[KeptFrom(init)..] + [last];
      }
    }
  }

  /** A fold of a log is the fold from its newest snapshot on; where it started does not matter then. */
  lemma {:induction false} SnapshotTruncationSound(s0: State, log: seq<StateUpdate>, nds: seq<Nondet>)
    requires |nds| == |log| && Collect(s0, log, nds).Ok?
    ensures var k := KeptFrom(log); Collect(s0, log[k..], nds[k..]) == Collect(s0, log, nds)
  {
    hide Apply;
    if log != [] {
      var n := |log| - 1;
      var s := Collect(s0, log[..n], nds[..n]).value;
      if log[n].body.Snapshot? {
        assert log[n..][..0] == [] && nds[n..][..0] == [];
        assert log[n..] == [log[n]] && nds[n..] == [nds[n]];
        SnapshotReplaces(s, log[n], nds[n]);
        SnapshotReplaces(s0, log[n], nds[n]);
      } else {
        SnapshotTruncationSound(s0, log[..n], nds[..n]);
        var k := KeptFrom(log[..n]);
        assert log[k..][..n - k] == log[..n][k..] && nds[k..][..n - k] == nds[..n][k..];
        assert log[k..][n - k] == log[n] && nds[k..][n - k] == nds[n];
      }
    }
  }

  /** The rows of the table, as `order by created desc` may return them. */
  ghost predicate NewestFirst(rows: seq<StateUpdate>, log: seq<StateUpdate>) {
    && multiset(rows) == multiset(log)
    && forall i, j :: 0 <= i < j < |rows| ==> rows[i].created >= rows[j].created
  }

  /** Stamps increase, except that one update may have been stored several times in a row. */
  ghost predicate Ordered(log: seq<StateUpdate>) {
    forall i, j :: 0 <= i < j < |log| ==> log[i].created < log[j].created || log[i] == log[j]
  }

  /** The first row is the last update stored. */
  lemma NewestRow(rows: seq<StateUpdate>, log: seq<StateUpdate>)
    requires NewestFirst(rows, log) && Ordered(log) && log != []
    ensures rows != [] && rows[0] == log[|log| - 1]
  {
    assert |rows| == |multiset(rows)| == |multiset(log)| == |log|;
    var last := log[|log| - 1];
    assert last in multiset(log);
    assert last in multiset(rows);
    var i :| 0 <= i < |rows| && rows[i] == last;
    assert rows[0] in multiset(rows);
    assert rows[0] in multiset(log);
    var j :| 0 <= j < |log| && log[j] == rows[0];
  }

  lemma WithoutNewest(rows: seq<StateUpdate>, log: seq<StateUpdate>)
    requires NewestFirst(rows, log) && log != [] && rows != [] && rows[0] == log[|log| - 1]
    ensures NewestFirst(rows[1..], log[..|log| - 1])
  {
    SameRest(rows[1..], log[..|log| - 1], rows[0]);
    assert log == log[..|log| - 1] + [rows[0]] && rows == [rows[0]] + rows[1..];
  }

  lemma SameRest(a: seq<StateUpdate>, b: seq<StateUpdate>, x: StateUpdate)
    ensures multiset([x] + a) == multiset(b + [x]) ==> multiset(a) == multiset(b)
  {
    assert multiset([x] + a) - multiset{x} == multiset(a);
    assert multiset(b + [x]) - multiset{x} == multiset(b);
  }

  lemma SameLength(rows: seq<StateUpdate>, log: seq<StateUpdate>)
    requires NewestFirst(rows, log)
    ensures |rows| == |log|
  {
    assert |rows| == |multiset(rows)| == |multiset(log)| == |log|;
  }

  /** Ordered stamps leave the database no choice: newest first is the insertion order reversed. */
  lemma {:induction false} NewestFirstIsReverse(rows: seq<StateUpdate>, log: seq<StateUpdate>)
    requires NewestFirst(rows, log) && Ordered(log)
    ensures rows == Reverse(log)
    decreases |log|
  {
    hide NewestFirst, Reverse;
    SameLength(rows, log);
    if log != [] {
      var init, last := log[..|log| - 1], log[|log| - 1];
      NewestRow(rows, log);
      WithoutNewest(rows, log);
      NewestFirstIsReverse(rows[1..], init);
      ReverseAppend(init, last);
      assert log == init + [last] && rows == [last] + rows[1..];
    }
  }

  // ---------- Stamps out of order ----------

  function Inserted(x: StateUpdate, rows: seq<StateUpdate>): (r: seq<StateUpdate>)
    ensures multiset(r) == multiset(rows) + multiset{x}
  {
    if rows == [] || x.created >= rows[0].created then [x] + rows
    else
      assert rows == [rows[0]] + rows[1..];
      [rows[0]] + Inserted(x, rows[1..])
  }

  /** Newest first, each row not older than those after it. */
  ghost predicate Descending(rows: seq<StateUpdate>) {
    forall i, j :: 0 <= i < j < |rows| ==> rows[i].created >= rows[j].created
  }

  lemma NoOlderThanRest(first: StateUpdate, x: StateUpdate, rest: seq<StateUpdate>, after: seq<StateUpdate>)
    requires multiset(after) == multiset(rest) + multiset{x} && first.created >= x.created
    requires forall r :: r in rest ==> first.created >= r.created
    ensures forall i :: 0 <= i < |after| ==> first.created >= after[i].created
  {
    forall i | 0 <= i < |after| ensures first.created >= after[i].created {
      assert after[i] in multiset(after);
    }
  }

  lemma {:induction false} InsertedDescends(x: StateUpdate, rows: seq<StateUpdate>)
    requires Descending(rows)
    ensures Descending(Inserted(x, rows))
  {
    if rows != [] && x.created < rows[0].created {
      InsertedDescends(x, rows[1..]);
      NoOlderThanRest(rows[0], x, rows[1..], Inserted(x, rows[1..]));
    }
  }

  /** Whatever was stored, some answer of the database is possible. */
  lemma {:induction false} SomeAnswer(log: seq<StateUpdate>) returns (rows: seq<StateUpdate>)
    ensures NewestFirst(rows, log)
  {
    if log == [] {
      rows := [];
    } else {
      var init, last := log[..|log| - 1], log[|log| - 1];
      var sorted := SomeAnswer(init);
      InsertedDescends(last, sorted);
      rows := Inserted(last, sorted);
      assert log == init + [last];
    }
  }

  lemma {:induction false} ReverseMultiset(s: seq<StateUpdate>)
    ensures multiset(Reverse(s)) == multiset(s)
  {
    if s != [] {
      ReverseMultiset(s[1..]);
      assert s == [s[0]] + s[1..];
    }
  }

  /** Two different rows with one stamp may come in either order. */
  lemma TiedRowsSwap(rows: seq<StateUpdate>, log: seq<StateUpdate>, i: nat, j: nat)
    requires NewestFirst(rows, log) && i < j < |rows| && rows[i].created == rows[j].created
    ensures NewestFirst(rows[i := rows[j]][j := rows[i]], log)
  {
    var swapped := rows[i := rows[j]][j := rows[i]];
    assert multiset(swapped) == multiset(rows);
    forall a, b | 0 <= a < b < |swapped| ensures swapped[a].created >= swapped[b].created {
      assert swapped[a].created == rows[a].created && swapped[b].created == rows[b].created;
    }
  }

  /** The database is bound to give the insertion order back exactly when the stamps are ordered. */
  lemma NewestFirstDeterminedIff(log: seq<StateUpdate>)
    ensures (forall rows :: NewestFirst(rows, log) ==> rows == Reverse(log)) <==> Ordered(log)
  {
    if Ordered(log) {
      forall rows | NewestFirst(rows, log) ensures rows == Reverse(log) {
        NewestFirstIsReverse(rows, log);
      }
    } else {
      var rows := OtherAnswer(log);
    }
  }

  lemma RowsDescend(rows: seq<StateUpdate>, log: seq<StateUpdate>, i: nat, j: nat)
    requires NewestFirst(rows, log) && i < j < |rows|
    ensures rows[i].created >= rows[j].created
  {}

  /** Out of order, the reversed log is either no answer at all, or not the only one. */
  lemma OtherAnswer(log: seq<StateUpdate>) returns (rows: seq<StateUpdate>)
    requires !Ordered(log)
    ensures NewestFirst(rows, log) && rows != Reverse(log)
  {
    hide NewestFirst, Reverse;
    var i, j :| 0 <= i < j < |log| && log[i].created >= log[j].created && log[i] != log[j];
    var reversed, a, b := Reverse(log), |log| - 1 - j, |log| - 1 - i;
    if NewestFirst(reversed, log) {
      assert reversed[a] == log[j] && reversed[b] == log[i];
      RowsDescend(reversed, log, a, b);
      TiedRowsSwap(reversed, log, a, b);
      rows := reversed[a := reversed[b]][b := reversed[a]];
      assert rows[a] == log[i];
    } else {
      rows := SomeAnswer(log);
    }
  }

  lemma CollectTwo(s0: State, a: StateUpdate, b: StateUpdate, nds: seq<Nondet>)
    requires |nds| == 2
    ensures Collect(s0, [a, b], nds) ==
      match Apply(s0, a, nds[0])
      case Err(e) => Err(e)
      case Ok(o) => (match Apply(o.state, b, nds[1]) case Err(e) => Err(e) case Ok(o') => Ok(o'.state))
  {
    hide Apply;
    var log := [a, b];
    assert log[..1] == [a] && [a][..0] == [];
    assert nds[..1][..0] == [] && nds[..1][0] == nds[0];
    assert Collect(s0, [], []) == Ok(s0);
  }

  lemma InviteApplied(s: State, invite: StateUpdate, nd: Nondet)
    requires invite.body.GenInvite? && s.invites == map[]
    ensures Apply(s, invite, nd).Ok?
    ensures var after := Apply(s, invite, nd).value.state;
      after.users == s.users && invite.body.invite.invite in after.invites
  {}

  lemma SignupApplied(s: State, signup: StateUpdate, nd: Nondet)
    requires signup.body.Signup? && s.users == map[]
    ensures if signup.body.signup.invite in s.invites then Apply(s, signup, nd).Ok?
            else Apply(s, signup, nd) == Err(InviteNotFound)
  {}

  lemma ReverseOne<T>(x: T)
    ensures Reverse([x]) == [x]
  {
    assert [x][1..] == [];
  }

  lemma KeptTwo(a: StateUpdate, b: StateUpdate)
    requires !a.body.Snapshot? && !b.body.Snapshot?
    ensures UpToSnapshot([a, b]) == [a, b]
  {
    assert [a, b][1..] == [b] && [b][1..] == [];
    assert UpToSnapshot([b]) == [b] + UpToSnapshot([]);
  }

  lemma TwoRows(a: StateUpdate, b: StateUpdate)
    requires !a.body.Snapshot? && !b.body.Snapshot? && b.created <= a.created
    ensures NewestFirst([a, b], [a, b]) && UpToSnapshot([a, b]) == [a, b] && Reverse([a, b]) == [b, a]
  {
    hide Reverse, UpToSnapshot;
    KeptTwo(a, b);
    ReverseOne(a);
    ReverseAppend([a], b);
    assert [a] + [b] == [a, b];
  }

  /**
   Updates are stamped by their senders before the channel puts them in order. In a new
   custody a sign-up stamped no later than the invite it uses can come back first, and then
   the restart fails on a log that was committed without an error.
   */
  lemma LateInviteBreaksRestart(s0: State, invite: StateUpdate, signup: StateUpdate, nds: seq<Nondet>)
    requires s0.users == map[] && s0.invites == map[]
    requires invite.body.GenInvite? && signup.body.Signup? && signup.body.signup.invite == invite.body.invite.invite
    requires signup.created <= invite.created && |nds| == 2
    ensures var log := [invite, signup];
      && Collect(s0, log, nds).Ok?
      && NewestFirst(log, log)
      && UpToSnapshot(log) == log
      && Collect(s0, Reverse(log), nds) == Err(InviteNotFound)
  {
    hide Apply;
    TwoRows(invite, signup);
    CollectTwo(s0, invite, signup, nds);
    CollectTwo(s0, signup, invite, nds);
    InviteApplied(s0, invite, nds[0]);
    var invited := Apply(s0, invite, nds[0]).value.state;
    SignupApplied(s0, signup, nds[0]);
    SignupApplied(invited, signup, nds[1]);
  }

  // ---------- Restart ----------

  /**
   `query_state`: whatever rows the database returns newest first, keeping them up to the
   newest snapshot, reversing and folding gives the same as folding the whole log.
   */
  lemma QueryStateIsCollect(s0: State, log: seq<StateUpdate>, rows: seq<StateUpdate>, nds: seq<Nondet>)
    requires Ordered(log) && NewestFirst(rows, log)
    requires |nds| == |log| && Collect(s0, log, nds).Ok?
    ensures var kept := Reverse(UpToSnapshot(rows));
      |kept| <= |nds| && Collect(s0, kept, nds[|nds| - |kept|..]) == Collect(s0, log, nds)
  {
    NewestFirstIsReverse(rows, log);
    KeptIsSuffix(log);
    SnapshotTruncationSound(s0, log, nds);
  }

  /** The part of a fold from the newest snapshot on, step by step. */
  lemma {:induction false} KeptAlong(s0: State, log: seq<StateUpdate>, nds: seq<Nondet>)
    requires |nds| == |log| && Collect(s0, log, nds).Ok? && AdmissibleAlong(s0, log, nds)
      && UnambiguousAlong(s0, log, nds)
    ensures var k := KeptFrom(log);
      && Collect(s0, log[k..], nds[k..]) == Collect(s0, log, nds)
      && AdmissibleAlong(s0, log[k..], nds[k..]) && UnambiguousAlong(s0, log[k..], nds[k..])
    ensures KeptFrom(log) == 0 || log[KeptFrom(log)].body.Snapshot?
  {
    hide Apply;
    SnapshotTruncationSound(s0, log, nds);
    if log != [] {
      var n, k := |log| - 1, KeptFrom(log);
      if log[n].body.Snapshot? {
        assert log[n..] == [log[n]] && nds[n..] == [nds[n]];
        assert log[n..][..0] == [] && nds[n..][..0] == [];
      } else {
        KeptAlong(s0, log[..n], nds[..n]);
        assert log[k..][..n - k] == log[..n][k..] && nds[k..][..n - k] == nds[..n][k..];
        assert log[k..][n - k] == log[n] && nds[k..][n - k] == nds[n];
      }
    }
  }

  /**
   Restart: whatever the worker went through, reading the table newest first back to the
   newest snapshot and folding what was read, with its own fresh ids, clocks and searches,
   gives the state the worker had.
   */
  lemma RestartRebuilds(s0: State, t0: State, inbox: seq<Inbound>, rows: seq<StateUpdate>, nds: seq<Nondet>)
    requires Equivalent(s0, t0) && UnambiguousRun(Committed(s0, [], []), inbox)
      && AdmissibleRun(Committed(s0, [], []), inbox)
    requires var log := ServeAll(Committed(s0, [], []), inbox).log; Ordered(log) && NewestFirst(rows, log)
    requires var kept := Reverse(UpToSnapshot(rows)); |nds| == |kept| && AdmissibleAlong(t0, kept, nds)
    ensures var w := ServeAll(Committed(s0, [], []), inbox);
      Agrees(w.state, w.log, Collect(t0, Reverse(UpToSnapshot(rows)), nds))
  {
    hide Apply, NewestFirst, Reverse, UpToSnapshot;
    var w0 := Committed(s0, [], []);
    var w, own := ServeAll(w0, inbox), [] + Picks(w0, inbox);
    WorkerFoldsItsLog(s0, w0, [], inbox);
    NewestFirstIsReverse(rows, w.log);
    KeptIsSuffix(w.log);
    KeptAlong(s0, w.log, own);
    var k := KeptFrom(w.log);
    FoldsAgree(s0, t0, w.log[k..], own[k..], nds);
  }
}
