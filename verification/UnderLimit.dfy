/**
 Requests under the limit are paid without a vote. When one is accepted, what a run can send
 on for payment this way, and what the limit does not bound.
 */
module UnderLimit {
  import opened Domain
  import opened Accounts
  import opened Updates
  import opened StateMachine
  import opened Runs
  import opened Requests
  import opened Frames
  import W = Withdrawals
  import L = Limits

  /** The account a request draws on. */
  ghost predicate HeldFor(s: State, w: W.WithdrawalRequestInfo) {
    Has(s, w.user, w.address.Currency())
  }

  ghost function AccountFor(s: State, w: W.WithdrawalRequestInfo): UserCurrencyInfo
    requires HeldFor(s, w)
  {
    Account(s, w.user, w.address.Currency())
  }

  /**
   A request is accepted exactly if its account is there and it is over the limit, or what was
   spent and the amount together are within it, modulo 2^64; under the limit it is sent on.
   */
  lemma CreationAcceptedIff(s: State, created: Time, w: W.WithdrawalRequestInfo)
    ensures WithdrawalCreated(s, created, w).Ok? <==>
      && HeldFor(s, w)
      && var info := AccountFor(s, w).limitInfo;
      w.requestType.OverLimit? || (info.spent + w.amount) % TWO_TO_THE_64 <= info.limit.amount
    ensures WithdrawalCreated(s, created, w).Err? ==>
      WithdrawalCreated(s, created, w) == Err(
        if w.user !in s.users then UserNotFound(w.user)
        else if !HeldFor(s, w) then UserMissingCurrency(w.user, w.address.Currency())
        else LimitOverflow)
    ensures WithdrawalCreated(s, created, w).Ok? ==>
      WithdrawalCreated(s, created, w).value.result.Some? == w.requestType.UnderLimit?
  {}

  /** Users' settings and limits send nothing on. */
  lemma UserStepSendsNothing(s: State, step: Step)
    requires AboutUsers(step.update.body)
    ensures Emits(s, step) == []
  {}

  /** Only a creation sends on a request under the limit, and it is the one asked for. */
  lemma OnlyCreationsSend(s: State, step: Step, r: UpdateResult)
    requires r in Emits(s, step) && r.WithdrawalUnderlimit?
    ensures step.update.body.CreateWithdrawalRequest? && HeldFor(s, step.update.body.withdrawal)
    ensures var w := step.update.body.withdrawal;
      && w.requestType.UnderLimit? && WithdrawalCreated(s, step.update.created, w).Ok?
      && r.request.id == w.id && r.request.user == w.user && r.request.address == w.address
      && r.request.amount == w.amount
  {
    hide OrderSettled, OrderRequested, BtcTxUpdated, BtcTxCancelled;
    if AboutUsers(step.update.body) {
      UserStepSendsNothing(s, step);
    }
  }

  /** What a step sends on for being under the limit fits into what is left of it, while the sum does not wrap. */
  lemma SentWithinLeft(s: State, step: Step, r: UpdateResult)
    requires r in Emits(s, step) && r.WithdrawalUnderlimit?
    ensures Has(s, r.request.user, r.request.address.Currency())
    ensures var info := Account(s, r.request.user, r.request.address.Currency()).limitInfo;
      info.spent + r.request.amount < TWO_TO_THE_64 ==> info.spent + r.request.amount <= info.limit.amount
  {
    OnlyCreationsSend(s, step, r);
    CreationAcceptedIff(s, step.update.created, step.update.body.withdrawal);
  }

  /**
   Clearing the limits of a span gives every account with that span its whole limit again, and
   leaves every other account exactly what it had left.
   */
  lemma ClearingGivesRoom(s: State, step: Step, created: Time, w: W.WithdrawalRequestInfo)
    requires step.update.body.ClearLimits? && HeldFor(s, w) && w.requestType.UnderLimit?
    ensures Apply(s, step.update, step.nd).Ok? && HeldFor(Advance(s, step), w)
    ensures var limit := AccountFor(s, w).limitInfo.limit;
      WithdrawalCreated(Advance(s, step), created, w).Ok? <==>
        if limit.span == step.update.body.span then w.amount <= limit.amount else WithdrawalCreated(s, created, w).Ok?
  {
    var s', c := Advance(s, step), w.address.Currency();
    assert Account(s', w.user, c) == SpentCleared(Account(s, w.user, c), step.update.body.span);
  }

  // ---------- Runs ----------

  /** Nothing counts as spent on any account. */
  ghost predicate NothingSpent(s: State) {
    forall u, c :: Has(s, u, c) ==> Account(s, u, c).limitInfo.spent == 0
  }

  lemma {:induction false} NothingEverSpent(s0: State, steps: seq<Step>)
    requires NothingSpent(s0) && SnapshotsCurrent(s0, steps)
    ensures NothingSpent(Run(s0, steps))
    decreases |steps|
  {
    hide Apply;
    if steps != [] {
      var init, last := steps[..|steps| - 1], steps[|steps| - 1];
      SnapshotsCurrentPrefix(s0, steps);
      NothingEverSpent(s0, init);
      if Apply(Run(s0, init), last.update, last.nd).Ok? {
        StepFrame(Run(s0, init), last.update, last.nd);
      }
    }
  }

  /** Where a result of a run was sent on. */
  lemma {:induction false} SentAt(s0: State, steps: seq<Step>, r: UpdateResult) returns (i: nat)
    requires r in Emitted(s0, steps)
    ensures i < |steps| && r in Emits(Run(s0, steps[..i]), steps[i])
    decreases |steps|
  {
    hide Emits, Advance;
    var init := steps[..|steps| - 1];
    if r in Emits(Run(s0, init), steps[|steps| - 1]) {
      i := |steps| - 1;
    } else {
      i := SentAt(s0, init, r);
      assert init[..i] == steps[..i];
    }
  }

  /** The request was sent on in a state in which its account had a limit of at least the amount. */
  ghost predicate SentWithinLimitAt(s: State, step: Step, r: UpdateResult)
    requires r.WithdrawalUnderlimit?
  {
    && r in Emits(s, step)
    && Has(s, r.request.user, r.request.address.Currency())
    && r.request.amount <= Account(s, r.request.user, r.request.address.Currency()).limitInfo.limit.amount
  }

  /**
   Whatever a run sends on for payment without a vote is within the limit its account has at
   that moment. No condition on the sum is needed: nothing is ever counted as spent.
   */
  lemma SentWithinLimit(s0: State, steps: seq<Step>, r: UpdateResult)
    requires NothingSpent(s0) && SnapshotsCurrent(s0, steps)
    requires r in Emitted(s0, steps) && r.WithdrawalUnderlimit?
    ensures exists i :: 0 <= i < |steps| && SentWithinLimitAt(Run(s0, steps[..i]), steps[i], r)
  {
    hide Emits, NothingSpent, Emitted, SnapshotsCurrent;
    var i := SentAt(s0, steps, r);
    SnapshotsCurrentSplit(s0, steps, i);
    NothingEverSpent(s0, steps[..i]);
    SentWithinLeft(Run(s0, steps[..i]), steps[i], r);
    NothingSpentHere(Run(s0, steps[..i]), r.request.user, r.request.address.Currency());
  }

  lemma NothingSpentHere(s: State, u: UserId, c: Currency)
    requires NothingSpent(s) && Has(s, u, c)
    ensures Account(s, u, c).limitInfo.spent == 0
  {}

  // ---------- Where a limit comes from ----------

  /** Step `i` was accepted and is a confirmation, for this account, of this limit. */
  ghost predicate GrantedAt(s0: State, steps: seq<Step>, i: int, u: UserId, c: Currency, limit: L.Limit) {
    && 0 <= i < |steps| && NamesLimit(steps[i].update.body, limit)
    && steps[i].update.body.limitVote.user == u && steps[i].update.body.limitVote.currency == c
    && Apply(Run(s0, steps[..i]), steps[i].update, steps[i].nd).Ok?
  }

  ghost predicate Granted(s0: State, steps: seq<Step>, u: UserId, c: Currency, limit: L.Limit) {
    exists i :: GrantedAt(s0, steps, i, u, c, limit)
  }

  lemma GrantedStays(s0: State, steps: seq<Step>, u: UserId, c: Currency, limit: L.Limit)
    requires steps != [] && Granted(s0, steps[..|steps| - 1], u, c, limit)
    ensures Granted(s0, steps, u, c, limit)
  {
    hide Apply, Run, NamesLimit;
    var init := steps[..|steps| - 1];
    var i :| GrantedAt(s0, init, i, u, c, limit);
    assert init[..i] == steps[..i] && init[i] == steps[i];
    assert GrantedAt(s0, steps, i, u, c, limit);
  }

  /**
   In every reachable state of a custody that starts without users, a limit above zero is one an
   operator's accepted confirmation named for that very account.
   */
  lemma {:induction false} LimitWasGranted(s0: State, steps: seq<Step>, u: UserId, c: Currency)
    requires s0.users == map[] && SnapshotsCurrent(s0, steps) && Has(Run(s0, steps), u, c)
    ensures var limit := Account(Run(s0, steps), u, c).limitInfo.limit;
      limit.amount == 0 || Granted(s0, steps, u, c, limit)
    decreases |steps|
  {
    hide Apply, Granted, AccountMoves;
    if steps != [] {
      var init, last := steps[..|steps| - 1], steps[|steps| - 1];
      SnapshotsCurrentPrefix(s0, steps);
      var s, limit := Run(s0, init), Account(Run(s0, steps), u, c).limitInfo.limit;
      var accepted := Apply(s, last.update, last.nd).Ok?;
      if accepted {
        StepFrame(s, last.update, last.nd);
      }
      if Has(s, u, c) {
        LimitWasGranted(s0, init, u, c);
        if limit == Account(s, u, c).limitInfo.limit {
          if limit.amount != 0 {
            GrantedStays(s0, steps, u, c, limit);
          }
        } else {
          LimitMoved(last.update.body, Account(s, u, c), Account(Run(s0, steps), u, c));
          GrantedNow(s0, steps, u, c, limit);
        }
      } else {
        NewAccountLimit(c);
      }
    }
  }

  lemma LimitMoved(body: UpdateBody, before: UserCurrencyInfo, after: UserCurrencyInfo)
    requires AccountMoves(body, before, after) && after.limitInfo.limit != before.limitInfo.limit
    ensures NamesLimit(body, after.limitInfo.limit)
  {}

  lemma GrantedNow(s0: State, steps: seq<Step>, u: UserId, c: Currency, limit: L.Limit)
    requires steps != [] && GrantedAt(s0, steps, |steps| - 1, u, c, limit)
    ensures Granted(s0, steps, u, c, limit)
  {}

  lemma NewAccountLimit(c: Currency)
    ensures NewAccount(c).limitInfo.limit.amount == 0 && NewAccount(c).limitInfo.spent == 0
  {}

  /**
   So nothing is ever paid without a vote on an account no operator granted a limit: over every
   run of a custody that starts without users, an amount sent on for being under the limit is
   zero, or at most a limit that an accepted confirmation named for that account before.
   */
  lemma PaidWithinGranted(s0: State, steps: seq<Step>, r: UpdateResult)
    requires s0.users == map[] && SnapshotsCurrent(s0, steps)
    requires r in Emitted(s0, steps) && r.WithdrawalUnderlimit?
    ensures r.request.amount == 0 || exists i, limit: L.Limit ::
      GrantedAt(s0, steps, i, r.request.user, r.request.address.Currency(), limit) && r.request.amount <= limit.amount
  {
    hide Apply, Emits, Emitted, SnapshotsCurrent, Run;
    SentWithinLimit(s0, steps, r);
    var i :| 0 <= i < |steps| && SentWithinLimitAt(Run(s0, steps[..i]), steps[i], r);
    var u, c := r.request.user, r.request.address.Currency();
    SnapshotsCurrentSplit(s0, steps, i);
    LimitWasGranted(s0, steps[..i], u, c);
    var limit := Account(Run(s0, steps[..i]), u, c).limitInfo.limit;
    if r.request.amount != 0 {
      var j :| GrantedAt(s0, steps[..i], j, u, c, limit);
      assert steps[..i][..j] == steps[..j] && steps[..i][j] == steps[j];
      assert GrantedAt(s0, steps, j, u, c, limit);
    }
  }

  // ---------- What the limit does not bound ----------

  /** Requests under the limit by one account, each within it. */
  ghost predicate EachWithin(steps: seq<Step>, u: UserId, c: Currency, limit: u64) {
    forall step :: step in steps ==>
      && step.update.body.CreateWithdrawalRequest?
      && var w := step.update.body.withdrawal;
      w.user == u && w.address.Currency() == c && w.requestType.UnderLimit? && w.amount <= limit
  }

  /** One of them: accepted, sent on, and the limit is as before. */
  lemma OneMoreWithin(s: State, step: Step, u: UserId, c: Currency)
    requires Has(s, u, c) && Account(s, u, c).limitInfo.spent == 0
    requires EachWithin([step], u, c, Account(s, u, c).limitInfo.limit.amount)
    ensures var s' := Advance(s, step); Has(s', u, c) && Account(s', u, c).limitInfo == Account(s, u, c).limitInfo
    ensures |Emits(s, step)| == 1 && Emits(s, step)[0].WithdrawalUnderlimit?
    ensures Emits(s, step)[0].request.amount == step.update.body.withdrawal.amount
  {
    assert step in [step];
  }

  /** What a sequence of results asks to pay without a vote. */
  ghost function SentSum(results: seq<UpdateResult>): int {
    if results == [] then 0
    else
      var last := results[|results| - 1];
      SentSum(results[..|results| - 1]) + if last.WithdrawalUnderlimit? then last.request.amount else 0
  }

  ghost function AskedSum(steps: seq<Step>): int {
    if steps == [] then 0
    else
      var body := steps[|steps| - 1].update.body;
      AskedSum(steps[..|steps| - 1]) + if body.CreateWithdrawalRequest? then body.withdrawal.amount else 0
  }

  /**
   The limit bounds each request, not their sum: any number of requests, each within it, are
   all accepted and all sent on.
   */
  lemma {:induction false} LimitBoundsEachAlone(s: State, steps: seq<Step>, u: UserId, c: Currency)
    requires Has(s, u, c) && Account(s, u, c).limitInfo.spent == 0
    requires EachWithin(steps, u, c, Account(s, u, c).limitInfo.limit.amount)
    ensures var s' := Run(s, steps); Has(s', u, c) && Account(s', u, c).limitInfo == Account(s, u, c).limitInfo
    ensures |Emitted(s, steps)| == |steps| && SentSum(Emitted(s, steps)) == AskedSum(steps)
    decreases |steps|
  {
    hide Emits, Advance;
    if steps != [] {
      var init, last := steps[..|steps| - 1], steps[|steps| - 1];
      LimitBoundsEachAlone(s, init, u, c);
      assert last in steps;
      OneMoreWithin(Run(s, init), last, u, c);
      var sent := Emitted(s, steps);
      assert sent[..|sent| - 1] == Emitted(s, init);
    }
  }
}
