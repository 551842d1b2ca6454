/**
 What stands is what was written last: a user's settings, the best block known, and the
 exchange wallet's addresses, over whole runs.
 */
module Settings {
  import opened Domain
  import opened Accounts
  import opened Updates
  import opened StateMachine
  import opened Runs
  import opened Requests

  // ---------- One setting of one user ----------

  datatype Setting = Language | Email | Phone | Telegram | Login | Key

  datatype Value = Text(text: string) | Contact(contact: Option<string>) | Auth(auth: SignupAuth)
    | PublicKeyOf(key: Option<PublicKey>)

  function Shown(user: UserInfo, f: Setting): Value {
    match f
    case Language => Text(user.config.language)
    case Email => Contact(user.config.email)
    case Phone => Contact(user.config.phone)
    case Telegram => Contact(user.config.tgName)
    case Login => Auth(user.auth)
    case Key => PublicKeyOf(user.publicKey)
  }

  function Given(contact: Option<Option<string>>): Option<Value> {
    if contact.Some? then Some(Contact(contact.value)) else None
  }

  /** What an accepted update writes into a setting of a user, if anything. */
  function Written(body: UpdateBody, u: UserId, f: Setting): Option<Value> {
    match (body, f)
    case (SetLanguage(v, language), Language) => if v == u then Some(Text(language)) else None
    case (PasswordChange(v, hash), Login) => if v == u then Some(Auth(Password(hash))) else None
    case (SetPublicKey(v, key), Key) => if v == u then Some(PublicKeyOf(key)) else None
    case (ConfigUpdate(d), Email) => if d.user == u then Given(d.email) else None
    case (ConfigUpdate(d), Phone) => if d.user == u then Given(d.phone) else None
    case (ConfigUpdate(d), Telegram) => if d.user == u then Given(d.tgName) else None
    case (Signup(i), Login) => if i.username == u then Some(Auth(i.auth)) else None
    case (Signup(i), Language) => if i.username == u then Some(Text("English")) else None
    case (Signup(i), Key) => if i.username == u then Some(PublicKeyOf(None)) else None
    case (Signup(i), _) => if i.username == u then Some(Contact(None)) else None
    case _ => None
  }

  /** After an accepted update every setting of every user is what it wrote, or what it was; nobody goes away. */
  ghost predicate SettingsMove(s: State, s': State, body: UpdateBody) {
    && (forall u :: u in s.users ==> u in s'.users)
    && (forall u, f :: u in s'.users ==>
          if Written(body, u, f).Some? then Shown(s'.users[u], f) == Written(body, u, f).value
          else u in s.users && Shown(s'.users[u], f) == Shown(s.users[u], f))
  }

  /** A user edited in the accounts or the limit requests only. */
  ghost predicate SameSettings(a: UserInfo, b: UserInfo) {
    b == a.(currencies := b.currencies, limitChangeRequests := b.limitChangeRequests)
  }

  ghost predicate OnlyAccounts(s: State, s': State) {
    && s'.users.Keys == s.users.Keys
    && forall u :: u in s.users ==> SameSettings(s.users[u], s'.users[u])
  }

  lemma OnlyAccountsMove(s: State, s': State, body: UpdateBody)
    requires OnlyAccounts(s, s') && forall u, f :: Written(body, u, f).None?
    ensures SettingsMove(s, s', body)
  {
    forall u, f | u in s'.users ensures Shown(s'.users[u], f) == Shown(s.users[u], f) {
      assert SameSettings(s.users[u], s'.users[u]);
    }
  }

  lemma SettingsStep(s: State, body: UpdateBody)
    requires IsSettings(body) && SettingsChanged(s, body).Ok?
    ensures SettingsMove(s, SettingsChanged(s, body).value, body)
  {}

  lemma SignupStep(s: State, created: Time, i: SignupInfo)
    requires SignedUp(s, created, i).Ok?
    ensures SettingsMove(s, SignedUp(s, created, i).value, Signup(i))
  {}

  lemma UserAccountsOnly(s: State, created: Time, body: UpdateBody, nd: Nondet)
    requires AboutUsers(body) && !IsSettings(body) && !body.Signup? && HandleUser(s, created, body, nd).Ok?
    ensures OnlyAccounts(s, HandleUser(s, created, body, nd).value)
  {
    hide Balance;
  }

  lemma OrderAccountsOnly(s: State, body: UpdateBody)
    requires body.ExchangeRequest? ==> OrderRequested(s, body.order).Ok?
    requires body.ExchangeDecision? ==> OrderSettled(s, body.decision).Ok?
    ensures body.ExchangeRequest? ==> OnlyAccounts(s, OrderRequested(s, body.order).value)
    ensures body.ExchangeDecision? ==> OnlyAccounts(s, OrderSettled(s, body.decision).value)
  {
    hide Balance;
  }

  lemma CancelAccountsOnly(s: State, body: UpdateBody, nd: Nondet)
    requires body.CancelBtcTx?
    ensures OnlyAccounts(s, BtcTxCancelled(s, body.cancel, nd))
  {
    var middle := DepositDropped(s, body.cancel, nd);
    assert OnlyAccounts(s, middle);
    assert OnlyAccounts(middle, WithdrawalReverted(middle, body.cancel, nd));
  }

  lemma OtherAccountsOnly(s: State, created: Time, body: UpdateBody, nd: Nondet)
    requires !AboutUsers(body) && SnapshotIsCurrent(s, body) && HandleOther(s, created, body, nd).Ok?
    ensures OnlyAccounts(s, HandleOther(s, created, body, nd).value.state)
  {
    hide OrderRequested, OrderSettled, BtcTxCancelled;
    OrderAccountsOnly(s, body);
    if body.CancelBtcTx? {
      CancelAccountsOnly(s, body, nd);
    }
  }

  lemma HandleSettings(s: State, created: Time, body: UpdateBody, nd: Nondet)
    requires SnapshotIsCurrent(s, body) && Handle(s, created, body, nd).Ok?
    ensures SettingsMove(s, Handle(s, created, body, nd).value.state, body)
  {
    hide SettingsMove, OnlyAccounts, SignedUp, SettingsChanged;
    if IsSettings(body) {
      SettingsStep(s, body);
    } else if body.Signup? {
      SignupStep(s, created, body.signup);
    } else {
      if AboutUsers(body) {
        UserAccountsOnly(s, created, body, nd);
      } else {
        OtherAccountsOnly(s, created, body, nd);
      }
      OnlyAccountsMove(s, Handle(s, created, body, nd).value.state, body);
    }
  }

  /** Every accepted update, of every kind, writes exactly the settings it names. */
  lemma StepSettings(s: State, upd: StateUpdate, nd: Nondet)
    requires Apply(s, upd, nd).Ok? && SnapshotIsCurrent(s, upd.body)
    ensures SettingsMove(s, Apply(s, upd, nd).value.state, upd.body)
  {
    hide Handle;
    ApplyStamps(s, upd, nd);
    HandleSettings(s, upd.created, upd.body, nd);
  }

  /** The step is refused, or writes something else. */
  ghost predicate LeavesAlone(s: State, step: Step, u: UserId, f: Setting) {
    Apply(s, step.update, step.nd).Ok? ==> Written(step.update.body, u, f).None?
  }

  /** A setting stays as it is while nothing accepted writes it. */
  lemma {:induction false} SettingStays(s: State, steps: seq<Step>, u: UserId, f: Setting)
    requires SnapshotsCurrent(s, steps) && u in s.users
    requires forall i :: 0 <= i < |steps| ==> LeavesAlone(Run(s, steps[..i]), steps[i], u, f)
    ensures u in Run(s, steps).users && Shown(Run(s, steps).users[u], f) == Shown(s.users[u], f)
    decreases |steps|
  {
    hide Apply, Written, Shown;
    if steps != [] {
      var init, last := steps[..|steps| - 1], steps[|steps| - 1];
      SnapshotsCurrentPrefix(s, steps);
      forall i | 0 <= i < |init| ensures init[..i] == steps[..i] && init[i] == steps[i] {
      }
      SettingStays(s, init, u, f);
      if Apply(Run(s, init), last.update, last.nd).Ok? {
        StepSettings(Run(s, init), last.update, last.nd);
      }
    }
  }

  /** In every reachable state each setting of a user is the one written last: at sign-up, or by a later update. */
  lemma LastSettingStands(s0: State, steps: seq<Step>, n: nat, u: UserId, f: Setting)
    requires SnapshotsCurrent(s0, steps) && n < |steps| && Written(steps[n].update.body, u, f).Some?
    requires Apply(Run(s0, steps[..n]), steps[n].update, steps[n].nd).Ok?
    requires forall i :: n < i < |steps| ==> LeavesAlone(Run(s0, steps[..i]), steps[i], u, f)
    ensures u in Run(s0, steps).users
      && Shown(Run(s0, steps).users[u], f) == Written(steps[n].update.body, u, f).value
  {
    hide Apply, Written, Shown, Run, SnapshotsCurrent, SnapshotIsCurrent, Advance;
    var now, rest := Run(s0, steps[..n + 1]), steps[n + 1..];
    RunNext(s0, steps, n);
    SnapshotsCurrentSplit(s0, steps, n + 1);
    CurrentAt(s0, steps, n);
    RunSplits(s0, steps, n + 1);
    WritesHere(Run(s0, steps[..n]), steps[n], u, f);
    forall i | 0 <= i < |rest|
      ensures Run(now, rest[..i]) == Run(s0, steps[..n + 1 + i]) && rest[i] == steps[n + 1 + i]
    {
      RunSplits(s0, steps[..n + 1 + i], n + 1);
      assert steps[..n + 1 + i][..n + 1] == steps[..n + 1] && steps[..n + 1 + i][n + 1..] == rest[..i];
    }
    SettingStays(now, rest, u, f);
  }

  lemma CurrentAt(s: State, steps: seq<Step>, n: nat)
    requires n < |steps| && SnapshotsCurrent(s, steps)
    ensures SnapshotIsCurrent(Run(s, steps[..n]), steps[n].update.body)
  {}

  /** The user whose setting is written is there afterwards. */
  lemma WritesHere(s: State, step: Step, u: UserId, f: Setting)
    requires Apply(s, step.update, step.nd).Ok? && SnapshotIsCurrent(s, step.update.body)
    requires Written(step.update.body, u, f).Some?
    ensures u in Advance(s, step).users && Shown(Advance(s, step).users[u], f) == Written(step.update.body, u, f).value
  {
    StepSettings(s, step.update, step.nd);
  }

  // ---------- The chain, the wallet's addresses, the clock ----------

  /** The best block, the wallet's addresses and the time stamp after an accepted update. */
  ghost predicate RegistersMove(s: State, s': State, upd: StateUpdate) {
    && s'.lastChanged == upd.created
    && (!upd.body.Snapshot? ==>
          && s'.btcState == (if upd.body.BestBtcBlock? then upd.body.block else s.btcState)
          && (forall c, a :: AddressIs(s', c, a) <==>
                if upd.body.ExchangeAddress? && upd.body.exchangeAddress.Currency() == c
                then a == upd.body.exchangeAddress else AddressIs(s, c, a)))
  }

  /** The exchange wallet receives `c` at this address. */
  ghost predicate AddressIs(s: State, c: Currency, a: CurrencyAddress) {
    c in s.exchangeState.addresses && s.exchangeState.addresses[c] == a
  }

  lemma UserStepRegisters(s: State, created: Time, body: UpdateBody, nd: Nondet)
    requires AboutUsers(body) && HandleUser(s, created, body, nd).Ok?
    ensures var s' := HandleUser(s, created, body, nd).value;
      s'.btcState == s.btcState && s'.exchangeState == s.exchangeState
  {}

  lemma OtherStepRegisters(s: State, created: Time, body: UpdateBody, nd: Nondet)
    requires !AboutUsers(body) && !body.Snapshot? && HandleOther(s, created, body, nd).Ok?
    ensures var s' := HandleOther(s, created, body, nd).value.state;
      && s'.btcState == (if body.BestBtcBlock? then body.block else s.btcState)
      && (!body.ExchangeAddress? ==> s'.exchangeState.addresses == s.exchangeState.addresses)
      && (body.ExchangeAddress? ==> forall c, a :: AddressIs(s', c, a) <==>
            if body.exchangeAddress.Currency() == c then a == body.exchangeAddress else AddressIs(s, c, a))
  {}

  lemma StepRegisters(s: State, upd: StateUpdate, nd: Nondet)
    requires Apply(s, upd, nd).Ok?
    ensures RegistersMove(s, Apply(s, upd, nd).value.state, upd)
  {
    ApplyStamps(s, upd, nd);
    if AboutUsers(upd.body) {
      UserStepRegisters(s, upd.created, upd.body, nd);
    } else if !upd.body.Snapshot? {
      OtherStepRegisters(s, upd.created, upd.body, nd);
    }
  }

  /** The best block known is the last one reported, whatever else the run does. */
  lemma {:induction false} LastBlockStands(s0: State, steps: seq<Step>, n: nat)
    requires n < |steps| && steps[n].update.body.BestBtcBlock?
    requires forall i :: n < i < |steps| ==> !steps[i].update.body.BestBtcBlock? && !steps[i].update.body.Snapshot?
    ensures Run(s0, steps).btcState == steps[n].update.body.block
    decreases |steps|
  {
    hide RegistersMove;
    var init, last := steps[..|steps| - 1], steps[|steps| - 1];
    if n < |init| {
      LastBlockStands(s0, init, n);
    }
    BlockStep(Run(s0, init), last);
  }

  lemma BlockStep(s: State, step: Step)
    requires !step.update.body.Snapshot?
    ensures Advance(s, step).btcState == if step.update.body.BestBtcBlock? then step.update.body.block else s.btcState
  {
    hide Handle;
    if step.update.body.BestBtcBlock? {
      BlockAccepted(s, step);
    }
    if Apply(s, step.update, step.nd).Ok? {
      StepRegisters(s, step.update, step.nd);
    }
  }

  lemma BlockAccepted(s: State, step: Step)
    requires step.update.body.BestBtcBlock?
    ensures Apply(s, step.update, step.nd).Ok?
  {}
}
