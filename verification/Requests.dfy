/**
 Withdrawal requests across whole runs: how a stored request may evolve, that keyed
 lookup and full scan agree, that a request is confirmed at most once, and that its vote
 lists summarise everything the operators ever decided about it.
 */
module Requests {
  import opened Domain
  import opened Collections
  import opened Accounts
  import opened Updates
  import opened StateMachine
  import opened Invariants
  import opened Runs
  import T = Transactions
  import W = Withdrawals
  import L = Limits
  import X = Exchanges

  ghost predicate RequestAt(s: State, u: UserId, c: Currency, id: Uuid) {
    Has(s, u, c) && id in Account(s, u, c).withdrawalRequests
  }

  ghost function RequestOf(s: State, u: UserId, c: Currency, id: Uuid): W.WithdrawalRequest
    requires RequestAt(s, u, c, id)
  {
    Account(s, u, c).withdrawalRequests[id]
  }

  // ---------- How one step may change a stored request ----------

  predicate IsVoteOn(body: UpdateBody, u: UserId, c: Currency, id: Uuid) {
    body.WithdrawalRequestDecision? && body.vote.userId == u && body.vote.currency == c && body.vote.requestId == id
  }

  predicate IsCreationOf(body: UpdateBody, u: UserId, c: Currency, id: Uuid) {
    && body.CreateWithdrawalRequest?
    && body.withdrawal.user == u && body.withdrawal.address.Currency() == c && body.withdrawal.id == id
  }

  /** Nothing, a verdict by the node, or an accepted vote: the only ways a request changes. */
  ghost predicate Evolves(before: W.WithdrawalRequest, after: W.WithdrawalRequest, body: UpdateBody, u: UserId,
                          c: Currency, id: Uuid) {
    if IsVoteOn(body, u, c, id) then
      W.Vote(before, body.vote).Ok? && after == W.Vote(before, body.vote).value.0
    else
      || after == before
      || (after == before.(status := after.status) && (after.status.Completed? || after.status.NodeRejected?))
  }

  ghost predicate RequestStep(s: State, s': State, upd: StateUpdate) {
    forall u, c, id :: RequestAt(s', u, c, id) ==>
      if IsCreationOf(upd.body, u, c, id) then RequestOf(s', u, c, id) == W.NewRequest(upd.created, upd.body.withdrawal)
      else RequestAt(s, u, c, id) && Evolves(RequestOf(s, u, c, id), RequestOf(s', u, c, id), upd.body, u, c, id)
  }

  /** No request appears or changes, though some may go away with their account. */
  ghost predicate SameRequests(s: State, s': State) {
    forall u, c, id :: RequestAt(s', u, c, id) ==>
      RequestAt(s, u, c, id) && RequestOf(s', u, c, id) == RequestOf(s, u, c, id)
  }

  lemma SetUserKeepsRequests(s: State, u: UserId, user: UserInfo)
    requires forall c :: c in user.currencies ==>
      user.currencies[c].withdrawalRequests == if Has(s, u, c) then Account(s, u, c).withdrawalRequests else map[]
    ensures SameRequests(s, SetUser(s, u, user))
  {}

  /**
   Setting a status by id changes the requests stored under that id and nothing else
   anywhere; in a state with unique ids that is exactly one request.
   */
  lemma StatusSetExactly(s: State, id: Uuid, status: W.WithdrawalRequestStatus)
    ensures var s' := StatusSet(s, id, status);
      && s' == s.(users := s'.users)
      && (forall u, c :: Has(s', u, c) <==> Has(s, u, c))
      && (forall u, c :: Has(s, u, c) ==>
            Account(s', u, c) == Account(s, u, c).(withdrawalRequests := Account(s', u, c).withdrawalRequests))
      && (forall u, c, k :: RequestAt(s', u, c, k) <==> RequestAt(s, u, c, k))
      && (forall u, c, k :: RequestAt(s, u, c, k) ==>
            RequestOf(s', u, c, k)
              == if k == id then RequestOf(s, u, c, k).(status := status) else RequestOf(s, u, c, k))
  {
    var s' := StatusSet(s, id, status);
    forall u, c | Has(s, u, c) ensures Account(s', u, c) == WithStatus(Account(s, u, c), id, status) {
    }
  }

  lemma EveryAccountKeepsRequests(s: State, f: UserCurrencyInfo -> UserCurrencyInfo)
    requires forall info :: f(info).withdrawalRequests == info.withdrawalRequests
    ensures SameRequests(s, EveryAccount(s, f))
  {}

  lemma StatusSetSteps(s: State, id: Uuid, status: W.WithdrawalRequestStatus, upd: StateUpdate)
    requires status.Completed? || status.NodeRejected?
    requires !upd.body.WithdrawalRequestDecision? && !upd.body.CreateWithdrawalRequest?
    ensures RequestStep(s, StatusSet(s, id, status), upd)
  {}

  lemma SameRequestsSteps(s: State, s': State, upd: StateUpdate)
    requires SameRequests(s, s')
    requires !upd.body.WithdrawalRequestDecision? && !upd.body.CreateWithdrawalRequest?
    ensures RequestStep(s, s', upd)
  {}

  lemma CreatedSteps(s: State, upd: StateUpdate)
    requires upd.body.CreateWithdrawalRequest? && WithdrawalCreated(s, upd.created, upd.body.withdrawal).Ok?
    ensures RequestStep(s, WithdrawalCreated(s, upd.created, upd.body.withdrawal).value.state, upd)
  {}

  lemma VotedSteps(s: State, upd: StateUpdate)
    requires upd.body.WithdrawalRequestDecision? && WithdrawalVoted(s, upd.body.vote).Ok?
    ensures RequestStep(s, WithdrawalVoted(s, upd.body.vote).value.state, upd)
  {}

  lemma CancelledSteps(s: State, upd: StateUpdate, nd: Nondet)
    requires upd.body.CancelBtcTx?
    ensures RequestStep(s, BtcTxCancelled(s, upd.body.cancel, nd), upd)
  {
    var cancel := upd.body.cancel;
    var middle := DepositDropped(s, cancel, nd);
    assert SameRequests(s, middle);
    var id := FindWithdrawal(middle, BtcTxId(cancel.txid), nd);
    if id.Some? {
      StatusSetSteps(middle, id.value, W.NodeRejected("Tx canceled"), upd);
    } else {
      SameRequestsSteps(s, middle, upd);
    }
  }

  lemma OrderSettledKeepsRequests(s: State, d: X.ExchangeDecision)
    requires OrderSettled(s, d).Ok?
    ensures SameRequests(s, OrderSettled(s, d).value)
  {
    var half := OrderDecided(s, d).value;
    assert SameRequests(s, half.0);
    if half.1 {
      assert SameRequests(half.0, OrderSettled(s, d).value);
    }
  }

  lemma SignedUpKeepsRequests(s: State, created: Time, i: SignupInfo)
    requires SignedUp(s, created, i).Ok?
    ensures SameRequests(s, SignedUp(s, created, i).value)
  {}

  lemma DepositAddressAddedKeepsRequests(s: State, u: UserId, a: CurrencyAddress)
    requires DepositAddressAdded(s, u, a).Ok?
    ensures SameRequests(s, DepositAddressAdded(s, u, a).value)
  {}

  lemma TokensUpdatedKeepsRequests(s: State, t: TokenUpdate)
    requires TokensUpdated(s, t).Ok?
    ensures SameRequests(s, TokensUpdated(s, t).value)
  {}

  lemma LimitRequestedKeepsRequests(s: State, r: L.LimitChangeUpd, nd: Nondet)
    requires LimitRequested(s, r, nd).Ok?
    ensures SameRequests(s, LimitRequested(s, r, nd).value)
  {}

  lemma LimitCancelledKeepsRequests(s: State, r: L.LimitCancelData)
    requires LimitCancelled(s, r).Ok?
    ensures SameRequests(s, LimitCancelled(s, r).value)
  {}

  lemma LimitVotedKeepsRequests(s: State, d: L.LimitChangeDecision)
    requires LimitVoted(s, d).Ok?
    ensures SameRequests(s, LimitVoted(s, d).value)
  {}

  lemma SettingsKeepRequests(s: State, body: UpdateBody)
    requires IsSettings(body) && SettingsChanged(s, body).Ok?
    ensures SameRequests(s, SettingsChanged(s, body).value)
  {
    SetUserKeepsRequests(s, SettingsUser(body), WithSettings(s.users[SettingsUser(body)], body));
  }

  lemma LimitsKeepRequests(s: State, body: UpdateBody, nd: Nondet)
    requires AboutLimits(body) && LimitsHandled(s, body, nd).Ok?
    ensures SameRequests(s, LimitsHandled(s, body, nd).value)
  {
    match body {
      case LimitsChangeRequest(r) => LimitRequestedKeepsRequests(s, r, nd);
      case CancelLimitChange(r) => LimitCancelledKeepsRequests(s, r);
      case LimitChangeDecision(d) => LimitVotedKeepsRequests(s, d);
    }
  }

  lemma UserStepKeepsRequests(s: State, upd: StateUpdate, nd: Nondet)
    requires AboutUsers(upd.body) && HandleUser(s, upd.created, upd.body, nd).Ok?
    ensures SameRequests(s, HandleUser(s, upd.created, upd.body, nd).value)
  {
    if IsSettings(upd.body) {
      SettingsKeepRequests(s, upd.body);
    } else if AboutLimits(upd.body) {
      LimitsKeepRequests(s, upd.body, nd);
    } else {
      match upd.body {
        case Signup(i) => SignedUpKeepsRequests(s, upd.created, i);
        case DepositAddress(u, a) => DepositAddressAddedKeepsRequests(s, u, a);
        case UpdateTokens(t) => TokensUpdatedKeepsRequests(s, t);
        case GenInvite(_) =>
      }
    }
  }

  lemma OrderRequestedKeepsRequests(s: State, r: X.ExchangeOrderUpd)
    requires OrderRequested(s, r).Ok?
    ensures SameRequests(s, OrderRequested(s, r).value)
  {}

  lemma BtcTxUpdatedKeepsRequests(s: State, tx: T.BtcTransaction, nd: Nondet)
    ensures SameRequests(s, BtcTxUpdated(s, tx, nd))
  {}

  /** The other kinds of update that leave every stored request as it was. */
  predicate IsQuiet(body: UpdateBody) {
    body.BestBtcBlock? || body.UpdateBtcTx? || body.ClearLimits? || body.ExchangeRequest? || body.ExchangeDecision?
    || body.ExchangeAddress?
  }

  lemma SameUsersKeepRequests(s: State, s': State)
    requires s'.users == s.users
    ensures SameRequests(s, s')
  {}

  lemma QuietStep(s: State, upd: StateUpdate, nd: Nondet)
    requires IsQuiet(upd.body) && HandleOther(s, upd.created, upd.body, nd).Ok?
    ensures SameRequests(s, HandleOther(s, upd.created, upd.body, nd).value.state)
  {
    hide SameRequests, OrderSettled, OrderRequested, BtcTxUpdated, EveryAccount;
    match upd.body {
      case ClearLimits(span) => EveryAccountKeepsRequests(s, SpentClearer(span));
      case UpdateBtcTx(tx) => BtcTxUpdatedKeepsRequests(s, tx, nd);
      case ExchangeRequest(r) => OrderRequestedKeepsRequests(s, r);
      case ExchangeDecision(d) => OrderSettledKeepsRequests(s, d);
      case BestBtcBlock(_) => SameUsersKeepRequests(s, HandleOther(s, upd.created, upd.body, nd).value.state);
      case ExchangeAddress(_) => SameUsersKeepRequests(s, HandleOther(s, upd.created, upd.body, nd).value.state);
    }
  }

  ghost predicate SnapshotIsCurrent(s: State, body: UpdateBody) {
    body.Snapshot? ==> body.snapshot.users == s.users
  }

  lemma OtherStepEvolves(s: State, upd: StateUpdate, nd: Nondet)
    requires !AboutUsers(upd.body) && HandleOther(s, upd.created, upd.body, nd).Ok? && SnapshotIsCurrent(s, upd.body)
    ensures RequestStep(s, HandleOther(s, upd.created, upd.body, nd).value.state, upd)
  {
    if IsQuiet(upd.body) {
      QuietStep(s, upd, nd);
      SameRequestsSteps(s, HandleOther(s, upd.created, upd.body, nd).value.state, upd);
    } else {
      match upd.body {
        case CreateWithdrawalRequest(_) => CreatedSteps(s, upd);
        case WithdrawalRequestDecision(_) => VotedSteps(s, upd);
        case WithdrawalRequestComplete(i) => StatusSetSteps(s, i.id, i.Status(), upd);
        case WithdrawalRequestNodeRejected(i) => StatusSetSteps(s, i.id, W.NodeRejected(i.reason), upd);
        case CancelBtcTx(_) => CancelledSteps(s, upd, nd);
        case Snapshot(st) => SameRequestsSteps(s, st, upd);
      }
    }
  }

  /** Requests live in the users only. */
  lemma StampedSteps(s: State, after: State, upd: StateUpdate)
    requires RequestStep(s, after, upd)
    ensures RequestStep(s, after.(lastChanged := upd.created), upd)
  {
    var s' := after.(lastChanged := upd.created);
    assert forall u, c, id :: RequestAt(s', u, c, id) <==> RequestAt(after, u, c, id);
  }

  /** Every accepted update evolves every stored request in one of the permitted ways. */
  lemma StepEvolves(s: State, upd: StateUpdate, nd: Nondet)
    requires Apply(s, upd, nd).Ok? && SnapshotIsCurrent(s, upd.body)
    ensures RequestStep(s, Apply(s, upd, nd).value.state, upd)
  {
    var after := Handle(s, upd.created, upd.body, nd).value.state;
    if AboutUsers(upd.body) {
      UserStepKeepsRequests(s, upd, nd);
      SameRequestsSteps(s, after, upd);
    } else {
      OtherStepEvolves(s, upd, nd);
    }
    StampedSteps(s, after, upd);
  }

  // ---------- The vote lists over a whole run ----------

  /** The operators' accepted votes on a request since it was last created. */
  ghost function VotesOn(s: State, steps: seq<Step>, u: UserId, c: Currency, id: Uuid)
    : seq<W.WithdrawalRequestDecisionInfo>
  {
    if steps == [] then []
    else
      var init, last := steps[..|steps| - 1], steps[|steps| - 1];
      var body := last.update.body;
      if Apply(Run(s, init), last.update, last.nd).Err? then VotesOn(s, init, u, c, id)
      else if IsCreationOf(body, u, c, id) then []
      else if IsVoteOn(body, u, c, id) then VotesOn(s, init, u, c, id) + [body.vote]
      else VotesOn(s, init, u, c, id)
  }

  /** Snapshots taken in a run cache the users as they are at that moment. */
  ghost predicate SnapshotsCurrent(s: State, steps: seq<Step>) {
    forall i :: 0 <= i < |steps| ==> SnapshotIsCurrent(Run(s, steps[..i]), steps[i].update.body)
  }

  lemma SnapshotsCurrentPrefix(s: State, steps: seq<Step>)
    requires steps != [] && SnapshotsCurrent(s, steps)
    ensures SnapshotsCurrent(s, steps[..|steps| - 1])
    ensures SnapshotIsCurrent(Run(s, steps[..|steps| - 1]), steps[|steps| - 1].update.body)
  {
    var init := steps[..|steps| - 1];
    forall i | 0 <= i < |init| ensures SnapshotIsCurrent(Run(s, init[..i]), init[i].update.body) {
      assert init[..i] == steps[..i];
    }
  }

  /** A run cut in two: each part has current snapshots. */
  lemma SnapshotsCurrentSplit(s: State, steps: seq<Step>, n: nat)
    requires n <= |steps| && SnapshotsCurrent(s, steps)
    ensures SnapshotsCurrent(s, steps[..n]) && SnapshotsCurrent(Run(s, steps[..n]), steps[n..])
  {
    hide SnapshotIsCurrent, Run;
    var first, rest := steps[..n], steps[n..];
    forall i | 0 <= i < n ensures SnapshotIsCurrent(Run(s, first[..i]), first[i].update.body) {
      assert first[..i] == steps[..i];
    }
    forall i | 0 <= i < |rest|
      ensures SnapshotIsCurrent(Run(Run(s, first), rest[..i]), rest[i].update.body)
    {
      RunSplits(s, steps[..n + i], n);
      assert steps[..n + i][..n] == first && steps[..n + i][n..] == rest[..i];
      assert rest[i] == steps[n + i];
    }
  }

  lemma CurrentSnapshotOk(s: State, body: UpdateBody)
    requires StateOk(s) && SnapshotIsCurrent(s, body)
    ensures SnapshotOk(body)
  {}

  lemma RunStateOk(s: State, steps: seq<Step>)
    requires StateOk(s) && SnapshotsCurrent(s, steps)
    ensures StateOk(Run(s, steps))
  {
    hide StateOk, SnapshotOk, SnapshotIsCurrent, Run;
    forall i | 0 <= i < |steps| && StateOk(Run(s, steps[..i])) ensures SnapshotOk(steps[i].update.body) {
      CurrentSnapshotOk(Run(s, steps[..i]), steps[i].update.body);
    }
    RunKeepsOk(s, steps);
  }

  lemma StoredVotesOk(s: State, u: UserId, c: Currency, id: Uuid)
    requires StateOk(s) && RequestAt(s, u, c, id)
    ensures RequestOk(u, c, id, RequestOf(s, u, c, id))
  {}

  lemma StepKeepsSummary(s: State, step: Step, u: UserId, c: Currency, id: Uuid,
                         votes: seq<W.WithdrawalRequestDecisionInfo>, key: PublicKey)
    requires StateOk(s) && Apply(s, step.update, step.nd).Ok? && SnapshotIsCurrent(s, step.update.body)
    requires RequestAt(Advance(s, step), u, c, id)
    requires RequestAt(s, u, c, id) ==> W.Summarises(RequestOf(s, u, c, id), votes, key)
    ensures var body := step.update.body;
      W.Summarises(RequestOf(Advance(s, step), u, c, id),
                   if IsCreationOf(body, u, c, id) then []
                   else if IsVoteOn(body, u, c, id) then votes + [body.vote] else votes, key)
  {
    hide Apply, StateOk;
    StepEvolves(s, step.update, step.nd);
    var body, after := step.update.body, RequestOf(Advance(s, step), u, c, id);
    if !IsCreationOf(body, u, c, id) {
      StoredVotesOk(s, u, c, id);
      assert Evolves(RequestOf(s, u, c, id), after, body, u, c, id);
      if IsVoteOn(body, u, c, id) {
        W.VoteKeepsSummary(RequestOf(s, u, c, id), body.vote, votes, key);
      }
    }
  }

  ghost predicate NoRequests(s: State) {
    forall u, c, id :: !RequestAt(s, u, c, id)
  }

  lemma {:induction false} VotesSummariseFrom(s0: State, steps: seq<Step>, u: UserId, c: Currency, id: Uuid,
                                              key: PublicKey)
    requires StateOk(s0) && NoRequests(s0) && SnapshotsCurrent(s0, steps)
    ensures RequestAt(Run(s0, steps), u, c, id)
      ==> W.Summarises(RequestOf(Run(s0, steps), u, c, id), VotesOn(s0, steps, u, c, id), key)
    decreases |steps|
  {
    if steps != [] {
      var init, last := steps[..|steps| - 1], steps[|steps| - 1];
      SnapshotsCurrentPrefix(s0, steps);
      RunStateOk(s0, init);
      VotesSummariseFrom(s0, init, u, c, id, key);
      var s := Run(s0, init);
      if Apply(s, last.update, last.nd).Ok? && RequestAt(Advance(s, last), u, c, id) {
        StepKeepsSummary(s, last, u, c, id, VotesOn(s0, init, u, c, id), key);
      }
    }
  }

  /**
   In every state a run reaches, the vote lists of every stored request hold exactly the
   operators whose last accepted vote on it was Confirm, or Reject, and the tally is the
   difference of the two, whatever else the run did in between.
   */
  lemma VotesSummariseRun(s0: State, steps: seq<Step>, u: UserId, c: Currency, id: Uuid, key: PublicKey)
    requires StateOk(s0) && NoRequests(s0) && SnapshotsCurrent(s0, steps)
    requires RequestAt(Run(s0, steps), u, c, id)
    ensures var req := RequestOf(Run(s0, steps), u, c, id);
      W.VotesOk(req) && W.Summarises(req, VotesOn(s0, steps, u, c, id), key)
  {
    VotesSummariseFrom(s0, steps, u, c, id, key);
    RunStateOk(s0, steps);
    StoredVotesOk(Run(s0, steps), u, c, id);
  }

  // ---------- The stored votes are the operators' own ----------

  /** The votes on a request, as they came in, are what is stored of it. */
  ghost predicate VotesSigned(req: W.WithdrawalRequest, votes: seq<W.WithdrawalRequestDecisionInfo>) {
    W.SignedBy(req.confirmations, votes, Confirm) && W.SignedBy(req.rejections, votes, Reject)
  }

  lemma StepKeepsSigned(s: State, step: Step, u: UserId, c: Currency, id: Uuid,
                        votes: seq<W.WithdrawalRequestDecisionInfo>)
    requires Apply(s, step.update, step.nd).Ok? && SnapshotIsCurrent(s, step.update.body)
    requires RequestAt(Advance(s, step), u, c, id)
    requires RequestAt(s, u, c, id) ==> VotesSigned(RequestOf(s, u, c, id), votes)
    ensures var body := step.update.body;
      VotesSigned(RequestOf(Advance(s, step), u, c, id),
                  if IsCreationOf(body, u, c, id) then []
                  else if IsVoteOn(body, u, c, id) then votes + [body.vote] else votes)
  {
    hide Apply;
    StepEvolves(s, step.update, step.nd);
    var body, after := step.update.body, RequestOf(Advance(s, step), u, c, id);
    if !IsCreationOf(body, u, c, id) {
      assert Evolves(RequestOf(s, u, c, id), after, body, u, c, id);
      if IsVoteOn(body, u, c, id) {
        W.VoteKeepsSigned(RequestOf(s, u, c, id), body.vote, votes);
      }
    }
  }

  /** In every reachable state every stored vote carries its operator's own last signature on the request. */
  lemma {:induction false} VotesSignedRun(s0: State, steps: seq<Step>, u: UserId, c: Currency, id: Uuid)
    requires NoRequests(s0) && SnapshotsCurrent(s0, steps)
    ensures RequestAt(Run(s0, steps), u, c, id)
      ==> VotesSigned(RequestOf(Run(s0, steps), u, c, id), VotesOn(s0, steps, u, c, id))
    decreases |steps|
  {
    hide VotesSigned;
    if steps != [] {
      var init, last := steps[..|steps| - 1], steps[|steps| - 1];
      SnapshotsCurrentPrefix(s0, steps);
      VotesSignedRun(s0, init, u, c, id);
      var s := Run(s0, init);
      if Apply(s, last.update, last.nd).Ok? && RequestAt(Advance(s, last), u, c, id) {
        StepKeepsSigned(s, last, u, c, id, VotesOn(s0, init, u, c, id));
      }
    }
  }

  // ---------- A stored request asks for what it was created with ----------

  ghost predicate AsCreated(req: W.WithdrawalRequest, created: Time, w: W.WithdrawalRequestInfo) {
    && req.id == w.id && req.user == w.user && req.address == w.address && req.amount == w.amount
    && req.createdAt == created && req.requestType == w.requestType
  }

  lemma EvolutionKeepsPayment(before: W.WithdrawalRequest, after: W.WithdrawalRequest, body: UpdateBody, u: UserId,
                              c: Currency, id: Uuid)
    requires Evolves(before, after, body, u, c, id)
    ensures after == before.(status := after.status, confirmations := after.confirmations,
                             rejections := after.rejections)
  {
    if IsVoteOn(body, u, c, id) {
      W.VoteFrame(before, body.vote);
    }
  }

  /** In every reachable state each stored request is one the run created, and asks for what was asked then. */
  lemma {:induction false} StoredAsCreated(s0: State, steps: seq<Step>, u: UserId, c: Currency, id: Uuid)
    returns (i: nat)
    requires NoRequests(s0) && SnapshotsCurrent(s0, steps) && RequestAt(Run(s0, steps), u, c, id)
    ensures i < |steps| && IsCreationOf(steps[i].update.body, u, c, id)
    ensures AsCreated(RequestOf(Run(s0, steps), u, c, id), steps[i].update.created, steps[i].update.body.withdrawal)
    decreases |steps|
  {
    hide Apply, Evolves;
    var init, last := steps[..|steps| - 1], steps[|steps| - 1];
    SnapshotsCurrentPrefix(s0, steps);
    var s, body := Run(s0, init), last.update.body;
    if Apply(s, last.update, last.nd).Ok? {
      StepEvolves(s, last.update, last.nd);
      if IsCreationOf(body, u, c, id) {
        return |steps| - 1;
      }
      assert Evolves(RequestOf(s, u, c, id), RequestOf(Run(s0, steps), u, c, id), body, u, c, id);
      EvolutionKeepsPayment(RequestOf(s, u, c, id), RequestOf(Run(s0, steps), u, c, id), body, u, c, id);
    }
    i := StoredAsCreated(s0, init, u, c, id);
  }

  // ---------- Two operators, over a whole run ----------

  ghost predicate TwoOperators(steps: seq<Step>, a: PublicKey, b: PublicKey) {
    forall step :: step in steps && step.update.body.WithdrawalRequestDecision? ==>
      step.update.body.vote.publicKey in {a, b}
  }

  ghost predicate VotedByTwo(req: W.WithdrawalRequest, a: PublicKey, b: PublicKey) {
    && W.Keys(req.confirmations) <= {a, b} && W.Keys(req.rejections) <= {a, b}
    && (req.status.Completed? || req.status.NodeRejected? || W.DecidedAtTwo(req))
  }

  lemma StepKeepsVotedByTwo(s: State, step: Step, u: UserId, c: Currency, id: Uuid, a: PublicKey, b: PublicKey)
    requires StateOk(s) && SnapshotIsCurrent(s, step.update.body) && Apply(s, step.update, step.nd).Ok?
    requires step.update.body.WithdrawalRequestDecision? ==> step.update.body.vote.publicKey in {a, b}
    requires RequestAt(s, u, c, id) ==> VotedByTwo(RequestOf(s, u, c, id), a, b)
    ensures RequestAt(Advance(s, step), u, c, id) ==> VotedByTwo(RequestOf(Advance(s, step), u, c, id), a, b)
  {
    hide Apply, StateOk;
    StepEvolves(s, step.update, step.nd);
    var s', body := Advance(s, step), step.update.body;
    if RequestAt(s', u, c, id) && !IsCreationOf(body, u, c, id) {
      StoredVotesOk(s, u, c, id);
      assert Evolves(RequestOf(s, u, c, id), RequestOf(s', u, c, id), body, u, c, id);
      if IsVoteOn(body, u, c, id) {
        W.VoteFrame(RequestOf(s, u, c, id), body.vote);
        W.TwoOperatorsStep(RequestOf(s, u, c, id), body.vote, a, b);
      }
    }
  }

  lemma {:induction false} VotedByTwoFrom(s0: State, steps: seq<Step>, u: UserId, c: Currency, id: Uuid, a: PublicKey,
                                          b: PublicKey)
    requires StateOk(s0) && NoRequests(s0) && SnapshotsCurrent(s0, steps) && TwoOperators(steps, a, b)
    ensures RequestAt(Run(s0, steps), u, c, id) ==> VotedByTwo(RequestOf(Run(s0, steps), u, c, id), a, b)
    decreases |steps|
  {
    if steps != [] {
      var init, last := steps[..|steps| - 1], steps[|steps| - 1];
      SnapshotsCurrentPrefix(s0, steps);
      RunStateOk(s0, init);
      VotedByTwoFrom(s0, init, u, c, id, a, b);
      assert last in steps;
      if Apply(Run(s0, init), last.update, last.nd).Ok? {
        StepKeepsVotedByTwo(Run(s0, init), last, u, c, id, a, b);
      }
    }
  }

  /** The verdict of two operators, read off their last votes. */
  ghost predicate DecidedExactly(status: W.WithdrawalRequestStatus, votes: seq<W.WithdrawalRequestDecisionInfo>,
                                 a: PublicKey, b: PublicKey) {
    && (status == W.Confirmed <==> W.LastVote(votes, a) == W.LastVote(votes, b) == Some(Confirm))
    && (status == W.OpRejected <==> W.LastVote(votes, a) == W.LastVote(votes, b) == Some(Reject))
    && (status.InProgress? ==> -1 <= status.tally <= 1)
  }

  /** The status of a request voted by two operators. */
  lemma ByTwoStatus(req: W.WithdrawalRequest, votes: seq<W.WithdrawalRequestDecisionInfo>, a: PublicKey, b: PublicKey)
    requires W.VotesOk(req) && VotedByTwo(req, a, b) && a != b && !req.status.Completed? && !req.status.NodeRejected?
    requires W.Summarises(req, votes, a) && W.Summarises(req, votes, b)
    ensures DecidedExactly(req.status, votes, a, b)
  {
    W.TwoKeysBound(W.Keys(req.confirmations), a, b);
    W.TwoKeysBound(W.Keys(req.rejections), a, b);
    W.KeysCount(req.confirmations);
    W.KeysCount(req.rejections);
  }

  /**
   With two operators the vote is exact in every reachable state: a request still with the
   operators is confirmed exactly when both last votes are Confirm, rejected exactly when
   both are Reject, and otherwise its tally is between -1 and 1.
   */
  lemma TwoOperatorsRunExactly(s0: State, steps: seq<Step>, u: UserId, c: Currency, id: Uuid, a: PublicKey,
                               b: PublicKey)
    requires StateOk(s0) && NoRequests(s0) && SnapshotsCurrent(s0, steps) && TwoOperators(steps, a, b) && a != b
    requires RequestAt(Run(s0, steps), u, c, id)
    ensures var status := RequestOf(Run(s0, steps), u, c, id).status;
      !status.Completed? && !status.NodeRejected? ==> DecidedExactly(status, VotesOn(s0, steps, u, c, id), a, b)
  {
    VotedByTwoFrom(s0, steps, u, c, id, a, b);
    VotesSummariseRun(s0, steps, u, c, id, a);
    VotesSummariseRun(s0, steps, u, c, id, b);
    var req := RequestOf(Run(s0, steps), u, c, id);
    if !req.status.Completed? && !req.status.NodeRejected? {
      ByTwoStatus(req, VotesOn(s0, steps, u, c, id), a, b);
    }
  }

  // ---------- Unique ids: lookup, scan and the update loops agree ----------

  ghost predicate UniqueIds(s: State) {
    forall u, c, v, d, id :: RequestAt(s, u, c, id) && RequestAt(s, v, d, id) ==> u == v && c == d
  }

  /** What a scan over all users, currencies and requests may return. */
  ghost predicate ScanResult(s: State, id: Uuid, r: Option<W.WithdrawalRequest>) {
    match r
    case Some(req) => exists u, c :: RequestAt(s, u, c, id) && RequestOf(s, u, c, id) == req
    case None => forall u, c :: !RequestAt(s, u, c, id)
  }

  /** With unique ids the scan finds the request keyed lookup finds, under the names the request itself carries. */
  lemma ScanAgreesWithLookup(s: State, u: UserId, c: Currency, id: Uuid, r: Option<W.WithdrawalRequest>)
    requires UniqueIds(s) && StateOk(s) && ScanResult(s, id, r)
    ensures RequestAt(s, u, c, id) <==> r.Some? && r.value.user == u && r.value.address.Currency() == c
    ensures RequestAt(s, u, c, id) ==> r == Some(RequestOf(s, u, c, id)) && r.value.id == id
  {}

  // ---------- A withdrawal is confirmed at most once ----------

  ghost function CreatedIds(steps: seq<Step>): set<Uuid> {
    set step | step in steps && step.update.body.CreateWithdrawalRequest? :: step.update.body.withdrawal.id
  }

  /** Request ids are fresh over the run: no two creations name the same one. */
  ghost predicate FreshIds(steps: seq<Step>) {
    forall i, j :: 0 <= i < j < |steps|
      && steps[i].update.body.CreateWithdrawalRequest? && steps[j].update.body.CreateWithdrawalRequest?
      ==> steps[i].update.body.withdrawal.id != steps[j].update.body.withdrawal.id
  }

  lemma CreatedIdsAppend(steps: seq<Step>)
    requires steps != []
    ensures var init, body := steps[..|steps| - 1], steps[|steps| - 1].update.body;
      CreatedIds(steps) == CreatedIds(init) + if body.CreateWithdrawalRequest? then {body.withdrawal.id} else {}
  {}

  lemma FreshIdsAppend(steps: seq<Step>)
    requires steps != [] && FreshIds(steps)
    ensures var init, body := steps[..|steps| - 1], steps[|steps| - 1].update.body;
      FreshIds(init) && (body.CreateWithdrawalRequest? ==> body.withdrawal.id !in CreatedIds(init))
  {}

  /** Stored ids were created, once; and a confirmation already announced leaves no undecided request behind. */
  ghost predicate ConfirmedOnce(s: State, steps: seq<Step>, announced: seq<UpdateResult>) {
    && UniqueIds(s)
    && (forall u, c, id :: RequestAt(s, u, c, id) ==> id in CreatedIds(steps))
    && (forall r :: r in announced && r.WithdrawConfirmed? ==> r.id in CreatedIds(steps))
    && (forall r, u, c :: r in announced && r.WithdrawConfirmed? && RequestAt(s, u, c, r.id) ==>
          !RequestOf(s, u, c, r.id).status.InProgress?)
    && (forall i, j :: 0 <= i < j < |announced| && announced[i].WithdrawConfirmed? ==> announced[i] != announced[j])
  }

  /** An announcement names a request that was undecided before the step and is confirmed after it. */
  lemma AnnouncementConfirms(s: State, step: Step, id: Uuid)
    requires StateOk(s) && WithdrawConfirmed(id) in Emits(s, step)
    ensures var d := step.update.body.vote;
      && step.update.body.WithdrawalRequestDecision?
      && d.requestId == id
      && RequestAt(s, d.userId, d.currency, id) && RequestOf(s, d.userId, d.currency, id).status.InProgress?
      && RequestAt(Advance(s, step), d.userId, d.currency, id)
      && RequestOf(Advance(s, step), d.userId, d.currency, id).status == W.Confirmed
      && |Emits(s, step)| == 1
  {
    var d := step.update.body.vote;
    var req := RequestOf(s, d.userId, d.currency, d.requestId);
    assert UserOk(d.userId, s.users[d.userId]) && RequestOk(d.userId, d.currency, d.requestId, req);
    W.VoteFrame(req, d);
  }

  lemma EvolutionLeavesProgress(before: W.WithdrawalRequest, after: W.WithdrawalRequest, body: UpdateBody, u: UserId,
                                c: Currency, id: Uuid)
    requires Evolves(before, after, body, u, c, id) && !before.status.InProgress?
    ensures !after.status.InProgress?
    ensures after.confirmations == before.confirmations && after.rejections == before.rejections
  {}

  /** After an accepted step every stored request is the new one, or was there before and undecided if it is now. */
  lemma StepOrigins(s: State, step: Step, u: UserId, c: Currency, id: Uuid)
    requires SnapshotIsCurrent(s, step.update.body) && RequestAt(Advance(s, step), u, c, id)
    ensures (IsCreationOf(step.update.body, u, c, id) && Apply(s, step.update, step.nd).Ok?)
      || (RequestAt(s, u, c, id)
        && (RequestOf(Advance(s, step), u, c, id).status.InProgress? ==> RequestOf(s, u, c, id).status.InProgress?))
  {
    if Apply(s, step.update, step.nd).Ok? {
      StepEvolves(s, step.update, step.nd);
      var s', body := Advance(s, step), step.update.body;
      if !IsCreationOf(body, u, c, id) && !RequestOf(s, u, c, id).status.InProgress? {
        EvolutionLeavesProgress(RequestOf(s, u, c, id), RequestOf(s', u, c, id), body, u, c, id);
      }
    }
  }

  /** A step that announces nothing. */
  lemma QuietKeepsConfirmedOnce(s: State, steps: seq<Step>, announced: seq<UpdateResult>)
    requires steps != [] && FreshIds(steps) && ConfirmedOnce(s, steps[..|steps| - 1], announced)
    requires SnapshotIsCurrent(s, steps[|steps| - 1].update.body)
    ensures ConfirmedOnce(Advance(s, steps[|steps| - 1]), steps, announced)
  {
    hide Apply, Advance, CreatedIds, FreshIds;
    var last := steps[|steps| - 1];
    CreatedIdsAppend(steps);
    FreshIdsAppend(steps);
    forall u, c, id | RequestAt(Advance(s, last), u, c, id)
      ensures (IsCreationOf(last.update.body, u, c, id) && Apply(s, last.update, last.nd).Ok?)
        || (RequestAt(s, u, c, id)
          && (RequestOf(Advance(s, last), u, c, id).status.InProgress? ==> RequestOf(s, u, c, id).status.InProgress?))
    {
      StepOrigins(s, last, u, c, id);
    }
  }

  /** An announcement of a request confirmed in this very step. */
  lemma AnnouncementKeepsConfirmedOnce(s: State, steps: seq<Step>, announced: seq<UpdateResult>, u: UserId,
                                       c: Currency, id: Uuid)
    requires ConfirmedOnce(s, steps, announced)
    requires RequestAt(s, u, c, id) && !RequestOf(s, u, c, id).status.InProgress?
    requires WithdrawConfirmed(id) !in announced
    ensures ConfirmedOnce(s, steps, announced + [WithdrawConfirmed(id)])
  {}

  lemma ConfirmedOnceStep(s: State, steps: seq<Step>, announced: seq<UpdateResult>)
    requires steps != [] && StateOk(s) && FreshIds(steps)
    requires ConfirmedOnce(s, steps[..|steps| - 1], announced)
    requires SnapshotIsCurrent(s, steps[|steps| - 1].update.body)
    ensures ConfirmedOnce(Advance(s, steps[|steps| - 1]), steps, announced + Emits(s, steps[|steps| - 1]))
  {
    hide FreshIds, StateOk;
    var last := steps[|steps| - 1];
    var s', emitted := Advance(s, last), Emits(s, last);
    QuietKeepsConfirmedOnce(s, steps, announced);
    if emitted == [] {
      assert announced + emitted == announced;
    } else if emitted[0].WithdrawConfirmed? {
      var id, d := emitted[0].id, last.update.body.vote;
      AnnouncementConfirms(s, last, id);
      assert emitted == [WithdrawConfirmed(id)];
      AnnouncementKeepsConfirmedOnce(s', steps, announced, d.userId, d.currency, id);
    }
  }

  /**
   Over every run with fresh ids a withdrawal is announced as confirmed at most once, and
   no announced request is ever in progress again.
   */
  lemma {:induction false} ConfirmedAtMostOnce(s0: State, steps: seq<Step>)
    requires StateOk(s0) && NoRequests(s0) && FreshIds(steps) && SnapshotsCurrent(s0, steps)
    ensures ConfirmedOnce(Run(s0, steps), steps, Emitted(s0, steps))
    decreases |steps|
  {
    if steps != [] {
      var init := steps[..|steps| - 1];
      SnapshotsCurrentPrefix(s0, steps);
      FreshIdsAppend(steps);
      ConfirmedAtMostOnce(s0, init);
      RunStateOk(s0, init);
      ConfirmedOnceStep(Run(s0, init), steps, Emitted(s0, init));
    }
  }

  // ---------- Decided requests keep their lists ----------

  /** A later state in which a request, if it is still there, is decided with the same lists and the same payment. */
  ghost predicate Frozen(s: State, s': State, u: UserId, c: Currency, id: Uuid)
    requires RequestAt(s, u, c, id)
  {
    RequestAt(s', u, c, id) ==>
      var a, b := RequestOf(s, u, c, id), RequestOf(s', u, c, id);
      b == a.(status := b.status) && !b.status.InProgress?
  }

  /** The request was never recreated, nor its account dropped and reopened under it. */
  ghost predicate NotRecreated(steps: seq<Step>, u: UserId, c: Currency, id: Uuid) {
    forall step :: step in steps ==> !IsCreationOf(step.update.body, u, c, id)
  }

  /** Once a request has left InProgress, no run of votes, completions, node rejections or cancels changes its lists. */
  lemma {:induction false} DecidedRequestsAreFrozen(s: State, steps: seq<Step>, u: UserId, c: Currency, id: Uuid)
    requires RequestAt(s, u, c, id) && !RequestOf(s, u, c, id).status.InProgress?
    requires SnapshotsCurrent(s, steps) && NotRecreated(steps, u, c, id)
    ensures Frozen(s, Run(s, steps), u, c, id)
    decreases |steps|
  {
    if steps != [] {
      var init, last := steps[..|steps| - 1], steps[|steps| - 1];
      SnapshotsCurrentPrefix(s, steps);
      assert last in steps;
      DecidedRequestsAreFrozen(s, init, u, c, id);
      var before, after := Run(s, init), Run(s, steps);
      if Apply(before, last.update, last.nd).Ok? && RequestAt(after, u, c, id) {
        StepEvolves(before, last.update, last.nd);
        assert !IsCreationOf(last.update.body, u, c, id);
        var body := last.update.body;
        EvolutionLeavesProgress(RequestOf(before, u, c, id), RequestOf(after, u, c, id), body, u, c, id);
        if IsVoteOn(body, u, c, id) {
          W.VoteFrame(RequestOf(before, u, c, id), body.vote);
        }
      }
    }
  }
}
