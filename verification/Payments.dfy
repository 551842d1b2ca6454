/**
 What an accepted update sends on for payment: a confirmed request, and at once a request
 under the limit. The vote does not look at the type of a request, so a request that was
 paid for being under the limit can still be confirmed, and is then sent on again.
 */
module Payments {
  import opened Domain
  import opened Updates
  import opened StateMachine
  import opened Invariants
  import opened Runs
  import opened Requests
  import W = Withdrawals

  /** The request a result asks to pay. */
  function PaymentId(r: UpdateResult): Uuid {
    match r
    case WithdrawConfirmed(id) => id
    case WithdrawalUnderlimit(request) => request.id
  }

  ghost predicate PaidOnce(announced: seq<UpdateResult>) {
    forall i, j :: 0 <= i < j < |announced| ==> PaymentId(announced[i]) != PaymentId(announced[j])
  }

  /**
   The step is a vote that is about to confirm a request under the limit: a Confirm by an
   operator who has not confirmed it yet, on a request one confirmation short of the quorum,
   or two if the operator is changing over from Reject.
   */
  ghost predicate ConfirmsUnderLimit(s: State, step: Step) {
    && step.update.body.WithdrawalRequestDecision?
    && var d := step.update.body.vote;
    && d.decisionType.Confirm?
    && RequestAt(s, d.userId, d.currency, d.requestId)
    && var req := RequestOf(s, d.userId, d.currency, d.requestId);
    && req.requestType.UnderLimit?
    && d.publicKey !in W.Keys(req.confirmations)
    && req.status == W.InProgress(if d.publicKey in W.Keys(req.rejections) then 0 else 1)
  }

  /** Request `id` was sent on for being under the limit. */
  ghost predicate SentUnderLimit(announced: seq<UpdateResult>, id: Uuid) {
    exists i :: 0 <= i < |announced| && announced[i].WithdrawalUnderlimit? && announced[i].request.id == id
  }

  ghost predicate IdsCreated(steps: seq<Step>, announced: seq<UpdateResult>) {
    forall i :: 0 <= i < |announced| ==> PaymentId(announced[i]) in CreatedIds(steps)
  }

  /** The stored requests under the limit are those sent on at their creation. */
  ghost predicate TypesKnown(s: State, announced: seq<UpdateResult>) {
    forall u, c, id :: RequestAt(s, u, c, id) ==>
      (RequestOf(s, u, c, id).requestType.UnderLimit? <==> SentUnderLimit(announced, id))
  }

  // ---------- What one step sends on ----------

  lemma CreationEmits(s: State, step: Step)
    requires step.update.body.CreateWithdrawalRequest?
    ensures var w := step.update.body.withdrawal;
      Emits(s, step) == if Apply(s, step.update, step.nd).Ok? && w.requestType.UnderLimit?
                        then [WithdrawalUnderlimit(W.NewRequest(step.update.created, w))] else []
  {}

  /** Only creations and votes send anything on. */
  lemma OthersEmitNothing(s: State, step: Step)
    requires !step.update.body.CreateWithdrawalRequest? && !step.update.body.WithdrawalRequestDecision?
    ensures Emits(s, step) == []
  {
    var body := step.update.body;
    if !AboutUsers(body) {
      assert HandleOther(s, step.update.created, body, step.nd).Ok? ==>
        HandleOther(s, step.update.created, body, step.nd).value.result == None;
    }
  }

  lemma VoteEmits(s: State, step: Step)
    requires StateOk(s) && step.update.body.WithdrawalRequestDecision?
    ensures Emits(s, step) == [] || Emits(s, step) == [WithdrawConfirmed(step.update.body.vote.requestId)]
  {
    if Emits(s, step) != [] {
      var r := Emits(s, step)[0];
      assert r.WithdrawConfirmed? && r in Emits(s, step);
      AnnouncementConfirms(s, step, r.id);
    }
  }

  lemma VoteStores(s: State, step: Step)
    requires step.update.body.WithdrawalRequestDecision?
    requires var d := step.update.body.vote;
      RequestAt(s, d.userId, d.currency, d.requestId) && W.Vote(RequestOf(s, d.userId, d.currency, d.requestId), d).Ok?
    ensures var d := step.update.body.vote;
      var (after, justConfirmed) := W.Vote(RequestOf(s, d.userId, d.currency, d.requestId), d).value;
      && RequestAt(Advance(s, step), d.userId, d.currency, d.requestId)
      && RequestOf(Advance(s, step), d.userId, d.currency, d.requestId) == after
      && Emits(s, step) == if justConfirmed then [WithdrawConfirmed(after.id)] else []
  {}

  /** When a vote on a stored request confirms it, in terms of the request before the vote. */
  lemma VoteConfirmsIff(req: W.WithdrawalRequest, d: W.WithdrawalRequestDecisionInfo)
    ensures W.Vote(req, d).Ok? && W.Vote(req, d).value.1 <==>
      && d.decisionType.Confirm? && d.publicKey !in W.Keys(req.confirmations)
      && req.status == W.InProgress(if d.publicKey in W.Keys(req.rejections) then 0 else 1)
  {}

  /** A vote sends on a confirmation exactly when it is accepted on a stored request and confirms it. */
  lemma VoteEmitsIff(s: State, step: Step)
    requires StateOk(s) && step.update.body.WithdrawalRequestDecision?
    ensures var d := step.update.body.vote;
      WithdrawConfirmed(d.requestId) in Emits(s, step) <==>
        && RequestAt(s, d.userId, d.currency, d.requestId)
        && var vote := W.Vote(RequestOf(s, d.userId, d.currency, d.requestId), d);
        vote.Ok? && vote.value.1
  {
    hide W.Vote;
    var d := step.update.body.vote;
    if WithdrawConfirmed(d.requestId) in Emits(s, step) {
      AnnouncementConfirms(s, step, d.requestId);
    }
    if RequestAt(s, d.userId, d.currency, d.requestId) {
      var req := RequestOf(s, d.userId, d.currency, d.requestId);
      if W.Vote(req, d).Ok? {
        VoteStores(s, step);
        StoredVotesOk(s, d.userId, d.currency, d.requestId);
        W.VoteFrame(req, d);
      }
    }
  }

  /** That vote, and no other, sends on the confirmation of a request under the limit. */
  lemma ConfirmsUnderLimitIff(s: State, step: Step)
    requires StateOk(s)
    ensures ConfirmsUnderLimit(s, step) <==>
      && step.update.body.WithdrawalRequestDecision?
      && var d := step.update.body.vote;
      && RequestAt(s, d.userId, d.currency, d.requestId)
      && RequestOf(s, d.userId, d.currency, d.requestId).requestType.UnderLimit?
      && WithdrawConfirmed(d.requestId) in Emits(s, step)
  {
    hide W.Vote, StateOk, Emits;
    if step.update.body.WithdrawalRequestDecision? {
      var d := step.update.body.vote;
      VoteEmitsIff(s, step);
      if RequestAt(s, d.userId, d.currency, d.requestId) {
        VoteConfirmsIff(RequestOf(s, d.userId, d.currency, d.requestId), d);
      }
    }
  }

  lemma EvolutionKeepsType(before: W.WithdrawalRequest, after: W.WithdrawalRequest, body: UpdateBody, u: UserId,
                           c: Currency, id: Uuid)
    requires Evolves(before, after, body, u, c, id)
    ensures after.requestType == before.requestType
  {
    if IsVoteOn(body, u, c, id) {
      W.VoteFrame(before, body.vote);
    }
  }

  /** A request keeps its type from its creation on. */
  lemma TypeOrigin(s: State, step: Step, u: UserId, c: Currency, id: Uuid)
    requires SnapshotIsCurrent(s, step.update.body) && RequestAt(Advance(s, step), u, c, id)
    ensures var body, after := step.update.body, RequestOf(Advance(s, step), u, c, id);
      || (IsCreationOf(body, u, c, id) && Apply(s, step.update, step.nd).Ok?
          && after.requestType == body.withdrawal.requestType)
      || (RequestAt(s, u, c, id) && after.requestType == RequestOf(s, u, c, id).requestType)
  {
    hide Apply, Evolves;
    if Apply(s, step.update, step.nd).Ok? {
      StepEvolves(s, step.update, step.nd);
      var body, s' := step.update.body, Advance(s, step);
      if !IsCreationOf(body, u, c, id) {
        assert Evolves(RequestOf(s, u, c, id), RequestOf(s', u, c, id), body, u, c, id);
        EvolutionKeepsType(RequestOf(s, u, c, id), RequestOf(s', u, c, id), body, u, c, id);
      }
    }
  }

  // ---------- What a run has sent on ----------

  lemma SentAppend(announced: seq<UpdateResult>, r: UpdateResult, id: Uuid)
    ensures SentUnderLimit(announced + [r], id)
      <==> SentUnderLimit(announced, id) || (r.WithdrawalUnderlimit? && r.request.id == id)
  {
    var all := announced + [r];
    if SentUnderLimit(announced, id) {
      var i :| 0 <= i < |announced| && announced[i].WithdrawalUnderlimit? && announced[i].request.id == id;
      assert all[i] == announced[i];
    }
    assert all[|announced|] == r;
  }

  /** An id sent on is one of those created. */
  lemma SentWasCreated(steps: seq<Step>, announced: seq<UpdateResult>, id: Uuid)
    requires IdsCreated(steps, announced) && SentUnderLimit(announced, id)
    ensures id in CreatedIds(steps)
  {
    var i :| 0 <= i < |announced| && announced[i].WithdrawalUnderlimit? && announced[i].request.id == id;
    assert PaymentId(announced[i]) == id;
  }

  /** What the run has sent on, after a step that creates a request or none. */
  ghost function SentSoFar(s: State, steps: seq<Step>, announced: seq<UpdateResult>): seq<UpdateResult>
    requires steps != []
  {
    announced + Emits(s, steps[|steps| - 1])
  }

  lemma IdsStayCreated(s: State, steps: seq<Step>, announced: seq<UpdateResult>)
    requires steps != [] && StateOk(s) && IdsCreated(steps[..|steps| - 1], announced)
    requires forall u, c, id :: RequestAt(s, u, c, id) ==> id in CreatedIds(steps[..|steps| - 1])
    ensures IdsCreated(steps, SentSoFar(s, steps, announced))
  {
    hide Apply;
    var last := steps[|steps| - 1];
    CreatedIdsAppend(steps);
    if last.update.body.CreateWithdrawalRequest? {
      CreationEmits(s, last);
    } else if last.update.body.WithdrawalRequestDecision? {
      VoteEmits(s, last);
      if Emits(s, last) != [] {
        var id := last.update.body.vote.requestId;
        assert WithdrawConfirmed(id) in Emits(s, last);
        AnnouncementConfirms(s, last, id);
      }
    } else {
      OthersEmitNothing(s, last);
    }
  }

  /** One stored request after the step. */
  lemma TypeStaysKnown(s: State, steps: seq<Step>, announced: seq<UpdateResult>, u: UserId, c: Currency, id: Uuid)
    requires steps != [] && StateOk(s) && FreshIds(steps) && SnapshotIsCurrent(s, steps[|steps| - 1].update.body)
    requires IdsCreated(steps[..|steps| - 1], announced) && TypesKnown(s, announced)
    requires forall v, d, i :: RequestAt(s, v, d, i) ==> i in CreatedIds(steps[..|steps| - 1])
    requires RequestAt(Advance(s, steps[|steps| - 1]), u, c, id)
    ensures RequestOf(Advance(s, steps[|steps| - 1]), u, c, id).requestType.UnderLimit?
      <==> SentUnderLimit(SentSoFar(s, steps, announced), id)
  {
    hide Apply, StateOk, CreatedIds, SentUnderLimit, FreshIds, Advance;
    var last, init := steps[|steps| - 1], steps[..|steps| - 1];
    var body, emitted := last.update.body, Emits(s, last);
    FreshIdsAppend(steps);
    TypeOrigin(s, last, u, c, id);
    if body.CreateWithdrawalRequest? {
      CreationEmits(s, last);
      if SentUnderLimit(announced, id) {
        SentWasCreated(init, announced, id);
      }
    } else if body.WithdrawalRequestDecision? {
      VoteEmits(s, last);
    } else {
      OthersEmitNothing(s, last);
    }
    if emitted == [] {
      assert announced + emitted == announced;
    } else {
      assert emitted == [emitted[0]];
      SentAppend(announced, emitted[0], id);
    }
  }

  /** One more result keeps every payment single exactly when its own id was not sent on before. */
  lemma PaidOnceAppend(announced: seq<UpdateResult>, r: UpdateResult)
    ensures PaidOnce(announced + [r])
      <==> PaidOnce(announced) && forall i :: 0 <= i < |announced| ==> PaymentId(announced[i]) != PaymentId(r)
  {
    var all := announced + [r];
    assert all[|announced|] == r;
    if PaidOnce(all) {
      forall i | 0 <= i < |announced| ensures PaymentId(announced[i]) != PaymentId(r) {
        assert all[i] == announced[i];
      }
      forall i, j | 0 <= i < j < |announced| ensures PaymentId(announced[i]) != PaymentId(announced[j]) {
        assert all[i] == announced[i] && all[j] == announced[j];
      }
    }
  }

  /** A vote that confirms: the id was sent on before exactly if the request is under the limit. */
  lemma ConfirmationSentBeforeIff(s: State, steps: seq<Step>, announced: seq<UpdateResult>, step: Step, id: Uuid)
    requires StateOk(s) && ConfirmedOnce(s, steps, announced) && TypesKnown(s, announced)
    requires WithdrawConfirmed(id) in Emits(s, step)
    ensures ConfirmsUnderLimit(s, step)
      <==> exists i :: 0 <= i < |announced| && PaymentId(announced[i]) == id
  {
    hide Apply, StateOk, UniqueIds, CreatedIds, ConfirmsUnderLimit;
    AnnouncementConfirms(s, step, id);
    ConfirmsUnderLimitIff(s, step);
    var d := step.update.body.vote;
    var req := RequestOf(s, d.userId, d.currency, id);
    if req.requestType.UnderLimit? {
      var i :| 0 <= i < |announced| && announced[i].WithdrawalUnderlimit? && announced[i].request.id == id;
      assert PaymentId(announced[i]) == id;
    }
    NotConfirmedBefore(s, steps, announced, d.userId, d.currency, id);
    if i :| 0 <= i < |announced| && PaymentId(announced[i]) == id {
      assert announced[i] in announced;
      assert announced[i].WithdrawalUnderlimit?;
      assert SentUnderLimit(announced, id);
    }
  }

  lemma NotConfirmedBefore(s: State, steps: seq<Step>, announced: seq<UpdateResult>, u: UserId, c: Currency, id: Uuid)
    requires ConfirmedOnce(s, steps, announced)
    requires RequestAt(s, u, c, id) && RequestOf(s, u, c, id).status.InProgress?
    ensures WithdrawConfirmed(id) !in announced
  {}

  /** A step keeps every payment single exactly when it is no vote confirming a request under the limit. */
  lemma StepPaysOnceIff(s: State, steps: seq<Step>, announced: seq<UpdateResult>)
    requires steps != [] && StateOk(s) && FreshIds(steps)
    requires ConfirmedOnce(s, steps[..|steps| - 1], announced) && TypesKnown(s, announced)
    requires IdsCreated(steps[..|steps| - 1], announced)
    ensures PaidOnce(SentSoFar(s, steps, announced))
      <==> PaidOnce(announced) && !ConfirmsUnderLimit(s, steps[|steps| - 1])
  {
    hide Apply, StateOk, ConfirmedOnce, TypesKnown, FreshIds, CreatedIds, PaidOnce, ConfirmsUnderLimit;
    var last, init := steps[|steps| - 1], steps[..|steps| - 1];
    var body, emitted := last.update.body, Emits(s, last);
    FreshIdsAppend(steps);
    ConfirmsUnderLimitIff(s, last);
    if body.CreateWithdrawalRequest? {
      CreationEmits(s, last);
    } else if body.WithdrawalRequestDecision? {
      VoteEmits(s, last);
    } else {
      OthersEmitNothing(s, last);
    }
    if emitted == [] {
      assert announced + emitted == announced;
    } else {
      assert emitted == [emitted[0]];
      PaidOnceAppend(announced, emitted[0]);
      if body.WithdrawalRequestDecision? {
        assert emitted[0] in emitted;
        ConfirmationSentBeforeIff(s, init, announced, last, body.vote.requestId);
      }
    }
  }

  /** Everything the induction over a run carries. */
  ghost predicate BookOfPayments(s: State, steps: seq<Step>, announced: seq<UpdateResult>) {
    ConfirmedOnce(s, steps, announced) && IdsCreated(steps, announced) && TypesKnown(s, announced)
  }

  lemma StoredWereCreated(s: State, steps: seq<Step>, announced: seq<UpdateResult>)
    requires ConfirmedOnce(s, steps, announced)
    ensures forall u, c, id :: RequestAt(s, u, c, id) ==> id in CreatedIds(steps)
  {}

  lemma BookKept(s: State, steps: seq<Step>, announced: seq<UpdateResult>)
    requires steps != [] && StateOk(s) && FreshIds(steps) && SnapshotIsCurrent(s, steps[|steps| - 1].update.body)
    requires BookOfPayments(s, steps[..|steps| - 1], announced)
    ensures BookOfPayments(Advance(s, steps[|steps| - 1]), steps, SentSoFar(s, steps, announced))
  {
    hide Apply, StateOk, ConfirmedOnce, FreshIds, CreatedIds, IdsCreated, SentUnderLimit, Advance;
    var s', sent := Advance(s, steps[|steps| - 1]), SentSoFar(s, steps, announced);
    StoredWereCreated(s, steps[..|steps| - 1], announced);
    ConfirmedOnceStep(s, steps, announced);
    IdsStayCreated(s, steps, announced);
    forall u, c, id | RequestAt(s', u, c, id)
      ensures RequestOf(s', u, c, id).requestType.UnderLimit? <==> SentUnderLimit(sent, id)
    {
      TypeStaysKnown(s, steps, announced, u, c, id);
    }
  }

  lemma {:induction false} RunKeepsBook(s0: State, steps: seq<Step>)
    requires StateOk(s0) && NoRequests(s0) && FreshIds(steps) && SnapshotsCurrent(s0, steps)
    ensures BookOfPayments(Run(s0, steps), steps, Emitted(s0, steps))
    decreases |steps|
  {
    hide Apply, StateOk, ConfirmedOnce, FreshIds, CreatedIds, Advance, Emits;
    if steps == [] {
      ConfirmedAtMostOnce(s0, steps);
    } else {
      var init := steps[..|steps| - 1];
      SnapshotsCurrentPrefix(s0, steps);
      FreshIdsAppend(steps);
      RunKeepsBook(s0, init);
      RunStateOk(s0, init);
      BookKept(Run(s0, init), steps, Emitted(s0, init));
    }
  }

  ghost predicate NoneConfirmedUnderLimit(s0: State, steps: seq<Step>) {
    forall i :: 0 <= i < |steps| ==> !ConfirmsUnderLimit(Run(s0, steps[..i]), steps[i])
  }

  lemma NoneConfirmedAppend(s0: State, steps: seq<Step>)
    requires steps != []
    ensures var init, last := steps[..|steps| - 1], steps[|steps| - 1];
      NoneConfirmedUnderLimit(s0, steps)
      <==> NoneConfirmedUnderLimit(s0, init) && !ConfirmsUnderLimit(Run(s0, init), last)
  {
    hide Run, ConfirmsUnderLimit;
    var init, last := steps[..|steps| - 1], steps[|steps| - 1];
    forall i | 0 <= i < |init| ensures steps[..i] == init[..i] && steps[i] == init[i] {
    }
    if NoneConfirmedUnderLimit(s0, steps) {
      forall i | 0 <= i < |init| ensures !ConfirmsUnderLimit(Run(s0, init[..i]), init[i]) {
        assert !ConfirmsUnderLimit(Run(s0, steps[..i]), steps[i]);
      }
    }
  }

  /**
   Over every run with fresh ids, every request is sent on for payment at most once exactly
   when no vote of the run confirms a request under the limit.
   */
  lemma {:induction false} PaidOnceIff(s0: State, steps: seq<Step>)
    requires StateOk(s0) && NoRequests(s0) && FreshIds(steps) && SnapshotsCurrent(s0, steps)
    ensures PaidOnce(Emitted(s0, steps)) <==> NoneConfirmedUnderLimit(s0, steps)
    decreases |steps|
  {
    hide Apply, StateOk, ConfirmedOnce, FreshIds, CreatedIds, Advance, Emits, ConfirmsUnderLimit;
    if steps != [] {
      var init := steps[..|steps| - 1];
      SnapshotsCurrentPrefix(s0, steps);
      FreshIdsAppend(steps);
      PaidOnceIff(s0, init);
      RunKeepsBook(s0, init);
      RunStateOk(s0, init);
      StepPaysOnceIff(Run(s0, init), steps, Emitted(s0, init));
      NoneConfirmedAppend(s0, steps);
    }
  }

  // ---------- A request that is paid twice ----------

  lemma CreationStores(s: State, step: Step)
    requires step.update.body.CreateWithdrawalRequest? && Apply(s, step.update, step.nd).Ok?
    ensures var w := step.update.body.withdrawal;
      var c := w.address.Currency();
      && RequestAt(Advance(s, step), w.user, c, w.id)
      && RequestOf(Advance(s, step), w.user, c, w.id) == W.NewRequest(step.update.created, w)
  {}

  /** Two operators' confirmations of a new request: undecided after the first, confirmed by the second. */
  lemma TwoVotesConfirm(req: W.WithdrawalRequest, d: W.WithdrawalRequestDecisionInfo,
                        e: W.WithdrawalRequestDecisionInfo)
    requires req.status == W.InProgress(0) && req.confirmations == [] && req.rejections == []
    requires d.decisionType.Confirm? && e.decisionType.Confirm? && d.publicKey != e.publicKey
    ensures W.Vote(req, d).Ok? && !W.Vote(req, d).value.1
    ensures var first := W.Vote(req, d).value.0;
      W.Vote(first, e).Ok? && W.Vote(first, e).value.1 && W.Vote(first, e).value.0.id == req.id
  {
    var first := W.Vote(req, d).value.0;
    assert first.confirmations == [d.Stored()];
    assert W.Keys(first.confirmations) == {d.publicKey};
  }

  /** A confirmation of this request. */
  predicate Confirms(step: Step, w: W.WithdrawalRequestInfo) {
    && step.update.body.WithdrawalRequestDecision?
    && step.update.body.vote.decisionType.Confirm?
    && IsVoteOn(step.update.body, w.user, w.address.Currency(), w.id)
  }

  /**
   Any accepted request under the limit, confirmed by any two operators, is sent on twice:
   at once, and again when it is confirmed.
   */
  lemma UnderLimitPaidTwice(s: State, create: Step, first: Step, second: Step)
    requires create.update.body.CreateWithdrawalRequest? && Apply(s, create.update, create.nd).Ok?
    requires create.update.body.withdrawal.requestType.UnderLimit?
    requires Confirms(first, create.update.body.withdrawal) && Confirms(second, create.update.body.withdrawal)
    requires first.update.body.vote.publicKey != second.update.body.vote.publicKey
    ensures var w := create.update.body.withdrawal;
      Emitted(s, [create, first, second]) ==
        [WithdrawalUnderlimit(W.NewRequest(create.update.created, w)), WithdrawConfirmed(w.id)]
    ensures !PaidOnce(Emitted(s, [create, first, second]))
  {
    hide Apply, Advance, Emits, W.Vote, PaidOnce;
    var w, s1 := create.update.body.withdrawal, Advance(s, create);
    var req, s2 := W.NewRequest(create.update.created, w), Advance(s1, first);
    CreationStores(s, create);
    CreationEmits(s, create);
    TwoVotesConfirm(req, first.update.body.vote, second.update.body.vote);
    VoteStores(s1, first);
    VoteStores(s2, second);
    EmittedByThree(s, create, first, second);
    PaidTwice(WithdrawalUnderlimit(req), WithdrawConfirmed(w.id));
  }

  lemma EmittedByThree(s: State, a: Step, b: Step, c: Step)
    ensures Emitted(s, [a, b, c]) == Emits(s, a) + Emits(Advance(s, a), b) + Emits(Advance(Advance(s, a), b), c)
  {
    hide Apply, Advance, Emits;
    assert [a, b, c][..2] == [a, b] && [a, b][..1] == [a] && [a][..0] == [];
    assert Run(s, []) == s && Emitted(s, []) == [];
    assert Run(s, [a]) == Advance(s, a) && Emitted(s, [a]) == Emits(s, a);
    assert Run(s, [a, b]) == Advance(Advance(s, a), b);
  }

  lemma PaidTwice(a: UpdateResult, b: UpdateResult)
    requires PaymentId(a) == PaymentId(b)
    ensures !PaidOnce([a, b])
  {
    var both := [a, b];
    assert PaymentId(both[0]) == PaymentId(both[1]);
  }
}
