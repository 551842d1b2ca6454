/**
 Whole runs of the ledger: any sequence of updates, refused ones leaving the state
 alone, and what every state they reach satisfies.
 */
module Runs {
  import opened Domain
  import opened Accounts
  import opened Updates
  import opened StateMachine
  import opened Invariants
  import L = Limits

  datatype Step = Step(update: StateUpdate, nd: Nondet)

  ghost function Advance(s: State, step: Step): State {
    match Apply(s, step.update, step.nd)
    case Ok(o) => o.state
    case Err(_) => s
  }

  ghost function Run(s: State, steps: seq<Step>): State {
    if steps == [] then s else Advance(Run(s, steps[..|steps| - 1]), steps[|steps| - 1])
  }

  /** A run is its first part followed by the rest. */
  lemma {:induction false} RunSplits(s: State, steps: seq<Step>, n: nat)
    requires n <= |steps|
    ensures Run(s, steps) == Run(Run(s, steps[..n]), steps[n..])
    decreases |steps|
  {
    hide Advance;
    var m := |steps| - 1;
    if n == |steps| {
      assert steps[..n] == steps && steps[n..] == [];
    } else {
      RunSplits(s, steps[..m], n);
      assert steps[..m][..n] == steps[..n] && steps[..m][n..] == steps[n..][..m - n];
      assert steps[n..][m - n] == steps[m];
    }
  }

  lemma RunNext(s: State, steps: seq<Step>, n: nat)
    requires n < |steps|
    ensures Run(s, steps[..n + 1]) == Advance(Run(s, steps[..n]), steps[n])
  {
    hide Advance;
    assert steps[..n + 1][..n] == steps[..n];
  }

  /** What a step emits. */
  ghost function Emits(s: State, step: Step): seq<UpdateResult> {
    match Apply(s, step.update, step.nd)
    case Ok(Outcome(_, Some(r))) => [r]
    case _ => []
  }

  ghost function Emitted(s: State, steps: seq<Step>): seq<UpdateResult> {
    if steps == [] then []
    else Emitted(s, steps[..|steps| - 1]) + Emits(Run(s, steps[..|steps| - 1]), steps[|steps| - 1])
  }

  /** Snapshots that appear in a run satisfy the invariant. */
  ghost predicate SnapshotsOk(steps: seq<Step>) {
    forall i :: 0 <= i < |steps| ==> SnapshotOk(steps[i].update.body)
  }

  /** It is enough that they do where they appear, given that the state they replace does. */
  ghost predicate SnapshotsKeepOk(s: State, steps: seq<Step>) {
    forall i :: 0 <= i < |steps| ==> StateOk(Run(s, steps[..i])) ==> SnapshotOk(steps[i].update.body)
  }

  /** The invariant holds in every state a run passes through. */
  lemma {:induction false} RunKeepsOk(s: State, steps: seq<Step>)
    requires StateOk(s) && SnapshotsKeepOk(s, steps)
    ensures StateOk(Run(s, steps))
  {
    hide StateOk, SnapshotOk, Apply;
    if steps != [] {
      var init, last := steps[..|steps| - 1], steps[|steps| - 1];
      forall i | 0 <= i < |init| && StateOk(Run(s, init[..i])) ensures SnapshotOk(init[i].update.body) {
        assert init[..i] == steps[..i];
      }
      RunKeepsOk(s, init);
      if Apply(Run(s, init), last.update, last.nd).Ok? {
        StepKeepsOk(Run(s, init), last.update, last.nd);
      }
    }
  }

  lemma NewStateOk(network: Network, now: Time)
    ensures StateOk(NewState(network, now))
  {}

  /** In every reachable state the finalized balance is at most the balance, and both are exact while the sums fit. */
  lemma ReachableFinalizedWithinBalance(network: Network, now: Time, steps: seq<Step>, u: UserId, c: Currency)
    requires SnapshotsOk(steps)
    requires var s := Run(NewState(network, now), steps);
      Has(s, u, c) && -TWO_TO_THE_63 <= SettledNet(Account(s, u, c)) && Net(Account(s, u, c)) < TWO_TO_THE_63
    ensures var info := Account(Run(NewState(network, now), steps), u, c);
      && FinalizedBalance(info) <= Balance(info)
      && Balance(info) == (if Net(info) < 0 then 0 else Net(info))
      && FinalizedBalance(info) == (if SettledNet(info) < 0 then 0 else SettledNet(info))
  {
    hide NewState, Run, Net, SettledNet;
    var s := Run(NewState(network, now), steps);
    NewStateOk(network, now);
    RunKeepsOk(NewState(network, now), steps);
    assert UserOk(u, s.users[u]);
    FinalizedWithinBalance(Account(s, u, c));
  }

  /**
   In every reachable state a limit request names its user and a currency the user holds,
   so looking up the current limit of a listed request always succeeds; the request is
   undecided and the two sides are at most one vote apart.
   */
  lemma ReachableLimitRequest(network: Network, now: Time, steps: seq<Step>, u: UserId, c: Currency)
    requires SnapshotsOk(steps)
    requires var s := Run(NewState(network, now), steps); u in s.users && c in s.users[u].limitChangeRequests
    ensures var user := Run(NewState(network, now), steps).users[u];
      var data := user.limitChangeRequests[c];
      data.user == u && data.currency == c && data.currency in user.currencies && L.LimitOk(data)
  {
    hide NewState, Run, L.LimitOk;
    var s := Run(NewState(network, now), steps);
    NewStateOk(network, now);
    RunKeepsOk(NewState(network, now), steps);
    assert UserOk(u, s.users[u]);
    assert StoredLimitOk(u, c, s.users[u], s.users[u].limitChangeRequests[c]);
  }

  /**
   A decision changes a limit only when it is the confirmation that makes the distinct
   confirming operators two more than the rejecting ones; the new limit is then the one
   the decision asked for, and the request is gone.
   */
  lemma LimitTakesEffect(s: State, d: L.LimitChangeDecision)
    requires StateOk(s) && LimitVoted(s, d).Ok?
    ensures var s' := LimitVoted(s, d).value;
      var request := s.users[d.user].limitChangeRequests[d.currency];
      && Has(s, d.user, d.currency) && Has(s', d.user, d.currency)
      && (d.decisionType.Confirm? ==>
            (d.currency !in s'.users[d.user].limitChangeRequests
             <==> |request.confirmations| + 1 == |request.rejections| + 2))
      && (Account(s', d.user, d.currency) != Account(s, d.user, d.currency) ==>
            && d.decisionType.Confirm?
            && L.DistinctSigners(request.confirmations + [d.Signed()])
            && |request.confirmations + [d.Signed()]| >= 2
            && d.currency !in s'.users[d.user].limitChangeRequests
            && Account(s', d.user, d.currency)
              == Account(s, d.user, d.currency).(limitInfo := L.LimitInfo(d.requestedLimit, 0)))
      && (d.currency in s'.users[d.user].limitChangeRequests ==>
            Account(s', d.user, d.currency) == Account(s, d.user, d.currency))
  {
    var user := s.users[d.user];
    assert UserOk(d.user, user);
    assert StoredLimitOk(d.user, d.currency, user, user.limitChangeRequests[d.currency]);
    L.DecideLimitKeepsOk(user.limitChangeRequests[d.currency], d);
  }

  /** Everything about limits but the requests of one user in one currency is as it was. */
  ghost predicate OnlyLimitRequestOf(s: State, s': State, u: UserId, c: Currency) {
    && s'.users.Keys == s.users.Keys && u in s.users
    && (forall v :: v in s.users && v != u ==> s'.users[v] == s.users[v])
    && (forall d :: d != c ==>
          (d in s'.users[u].limitChangeRequests <==> d in s.users[u].limitChangeRequests)
          && (d in s.users[u].limitChangeRequests ==>
                s'.users[u].limitChangeRequests[d] == s.users[u].limitChangeRequests[d]))
  }

  /** A request for a limit is listed, without a vote, as it was asked; no limit changes. */
  lemma LimitAskedIsListed(s: State, r: L.LimitChangeUpd, nd: Nondet)
    ensures LimitRequested(s, r, nd).Ok? <==> Has(s, r.user, r.currency)
    ensures LimitRequested(s, r, nd).Ok? ==>
      var s' := LimitRequested(s, r, nd).value;
      && OnlyLimitRequestOf(s, s', r.user, r.currency) && s'.users[r.user].currencies == s.users[r.user].currencies
      && r.currency in s'.users[r.user].limitChangeRequests
      && var data := s'.users[r.user].limitChangeRequests[r.currency];
      data.limit == r.limit && data.currency == r.currency && data.confirmations == [] && data.rejections == []
      && data.user == s.users[r.user].username && data.id == nd.limitId && data.createdAt == nd.limitCreatedAt
  {}

  /** Cancelling drops the request for the currency, whichever it is, and changes no limit. */
  lemma LimitCancelDrops(s: State, r: L.LimitCancelData)
    ensures LimitCancelled(s, r).Ok? <==> r.user in s.users
    ensures LimitCancelled(s, r).Ok? ==>
      var s' := LimitCancelled(s, r).value;
      && OnlyLimitRequestOf(s, s', r.user, r.currency) && s'.users[r.user].currencies == s.users[r.user].currencies
      && r.currency !in s'.users[r.user].limitChangeRequests
  {}

  /**
   A decision on a limit is accepted exactly from an operator who is not on its side yet. It
   settles the request exactly when it brings its side two ahead; until then the operator's
   signature joins that side and the other stays as it is. A rejection never changes a limit.
   */
  lemma LimitVoteCounts(s: State, d: L.LimitChangeDecision)
    requires StateOk(s) && d.user in s.users && d.currency in s.users[d.user].limitChangeRequests
    ensures var (own, other) := L.Sides(s.users[d.user].limitChangeRequests[d.currency], d.decisionType);
      && (LimitVoted(s, d).Ok? <==> forall x :: x in own ==> x.publicKey != d.publicKey)
      && (LimitVoted(s, d).Err? ==> LimitVoted(s, d).error == LimitAlreadyConfirmed)
      && (LimitVoted(s, d).Ok? ==>
            var s' := LimitVoted(s, d).value;
            && OnlyLimitRequestOf(s, s', d.user, d.currency)
            && (d.currency !in s'.users[d.user].limitChangeRequests <==> |own| + 1 == |other| + 2)
            && (d.currency in s'.users[d.user].limitChangeRequests ==>
                  L.Sides(s'.users[d.user].limitChangeRequests[d.currency], d.decisionType)
                    == (own + [SignatureData(d.signature, d.nonce, d.publicKey)], other))
            && (d.decisionType.Reject? ==> s'.users[d.user].currencies == s.users[d.user].currencies))
  {
    hide L.DecideLimit, L.LimitOk, L.Sides, StateOk, OnlyLimitRequestOf;
    StoredLimitIsOk(s, d.user, d.currency);
    L.DecisionCounts(s.users[d.user].limitChangeRequests[d.currency], d);
    if LimitVoted(s, d).Ok? {
      LimitVotedElsewhere(s, d);
    }
  }

  lemma StoredLimitIsOk(s: State, u: UserId, c: Currency)
    requires StateOk(s) && u in s.users && c in s.users[u].limitChangeRequests
    ensures L.LimitOk(s.users[u].limitChangeRequests[c])
  {
    assert UserOk(u, s.users[u]);
    assert StoredLimitOk(u, c, s.users[u], s.users[u].limitChangeRequests[c]);
  }

  lemma LimitVotedElsewhere(s: State, d: L.LimitChangeDecision)
    requires LimitVoted(s, d).Ok?
    ensures OnlyLimitRequestOf(s, LimitVoted(s, d).value, d.user, d.currency)
  {
    hide L.DecideLimit;
  }

  /** The decision grants the limit: it is the confirmation that brings the confirming operators two ahead. */
  ghost predicate Grants(s: State, d: L.LimitChangeDecision) {
    && d.decisionType.Confirm?
    && d.user in s.users && d.currency in s.users[d.user].limitChangeRequests
    && var request := s.users[d.user].limitChangeRequests[d.currency];
    |request.confirmations| + 1 == |request.rejections| + 2
  }

  /**
   The limit that takes effect is the one the operators were asked to approve exactly when
   the last of them repeats it; the ledger does not compare the two.
   */
  lemma GrantedLimitIsRequestedIff(s: State, d: L.LimitChangeDecision)
    requires StateOk(s) && LimitVoted(s, d).Ok? && Grants(s, d)
    ensures var s' := LimitVoted(s, d).value;
      && Has(s', d.user, d.currency)
      && (Account(s', d.user, d.currency).limitInfo.limit == s.users[d.user].limitChangeRequests[d.currency].limit
          <==> d.requestedLimit == s.users[d.user].limitChangeRequests[d.currency].limit)
      && Account(s', d.user, d.currency).limitInfo == L.LimitInfo(d.requestedLimit, 0)
  {
    LimitTakesEffect(s, d);
  }

  /**
   One operator alone can choose the value two were meant to approve: a new request for any
   limit, confirmed by one operator and then by another, sets the limit the second one names.
   */
  lemma SecondOperatorChooses(s: State, r: L.LimitChangeUpd, nd: Nondet, first: L.LimitChangeDecision,
                              second: L.LimitChangeDecision)
    requires LimitRequested(s, r, nd).Ok?
    requires first.decisionType.Confirm? && second.decisionType.Confirm? && first.publicKey != second.publicKey
    requires first.user == second.user == r.user && first.currency == second.currency == r.currency
    ensures var asked := LimitRequested(s, r, nd).value;
      var once := LimitVoted(asked, first);
      && asked.users[r.user].limitChangeRequests[r.currency].limit == r.limit
      && once.Ok?
      && Account(once.value, r.user, r.currency).limitInfo == Account(s, r.user, r.currency).limitInfo
      && LimitVoted(once.value, second).Ok?
      && Account(LimitVoted(once.value, second).value, r.user, r.currency).limitInfo
        == L.LimitInfo(second.requestedLimit, 0)
  {
    var asked := LimitRequested(s, r, nd).value;
    var data := asked.users[r.user].limitChangeRequests[r.currency];
    assert data.status == L.InProgress(0, 0) && data.confirmations == [];
    var pending := L.DecideLimit(data, first).value.data;
    assert pending.confirmations == [first.Signed()] && pending.status == L.InProgress(1, 0);
    var once := LimitVoted(asked, first).value;
    assert once.users[r.user].limitChangeRequests[r.currency] == pending;
    assert L.DecideLimit(pending, second) == Ok(L.Granted);
  }
}
