/**
 How every account begins: an invite is generated and a user signs up with it. One
 over-limit withdrawal later the account can be overdrawn, or show a balance nobody paid in.
 */
module Joining {
  import opened Domain
  import opened Collections
  import opened Accounts
  import opened Updates
  import opened StateMachine
  import opened Runs
  import W = Withdrawals
  import X = Exchanges

  const ANY_PICK := Nondet(0, "", None, None)

  function StepOf(body: UpdateBody, owner: Option<UserId>): Step {
    Step(StateUpdate(0, body), ANY_PICK.(owner := owner))
  }

  /** One accepted step: what its handler makes of the state, stamped. */
  lemma AdvanceIs(s: State, step: Step, after: State)
    requires Handle(s, step.update.created, step.update.body, step.nd).Ok?
    requires Handle(s, step.update.created, step.update.body, step.nd).value.state == after
    ensures Advance(s, step) == after.(lastChanged := step.update.created)
  {}

  lemma RunThree(s: State, steps: seq<Step>)
    requires |steps| == 3
    ensures Run(s, steps) == Advance(Advance(Advance(s, steps[0]), steps[1]), steps[2])
  {
    hide Advance;
    RunNext(s, steps, 0);
    RunNext(s, steps, 1);
    RunNext(s, steps, 2);
    assert steps[..0] == [] && steps[..3] == steps;
  }

  // ---------- Invite and sign-up ----------

  function JoinSteps(user: UserId, invite: Uuid): (Step, Step) {
    (StepOf(GenInvite(InviteRec(invite, "", "")), None), StepOf(Signup(SignupInfo(user, invite, Lightning)), None))
  }

  /** The user holds the currencies everyone starts with, and nothing in them; the wallet is new. */
  ghost predicate JustJoined(s: State, user: UserId) {
    && s.exchangeState == X.NewExchangeState()
    && (forall c :: Has(s, user, c) <==> c in DEFAULT_CURRENCIES)
    && (forall c :: c in DEFAULT_CURRENCIES ==> Account(s, user, c) == NewAccount(c))
  }

  lemma Invited(s: State, user: UserId, invite: Uuid)
    requires s.users == map[] && s.invites == map[] && s.exchangeState == X.NewExchangeState()
    ensures var s' := Advance(s, JoinSteps(user, invite).0);
      s'.users == map[] && invite in s'.invites && s'.exchangeState == X.NewExchangeState()
  {}

  lemma SignedUpWith(s: State, user: UserId, invite: Uuid)
    requires s.users == map[] && invite in s.invites && s.exchangeState == X.NewExchangeState()
    ensures var after := SignedUp(s, 0, SignupInfo(user, invite, Lightning));
      after.Ok? && JustJoined(after.value.(lastChanged := 0), user)
  {}

  lemma JoinRun(network: Network, now: Time, user: UserId, invite: Uuid)
    ensures var steps := JoinSteps(user, invite);
      JustJoined(Advance(Advance(NewState(network, now), steps.0), steps.1), user)
  {
    hide JustJoined, Advance, SignedUp, X.NewExchangeState, GenesisHash;
    Invited(NewState(network, now), user, invite);
    var invited := Advance(NewState(network, now), JoinSteps(user, invite).0);
    SignedUpWith(invited, user, invite);
    AdvanceIs(invited, JoinSteps(user, invite).1, SignedUp(invited, 0, SignupInfo(user, invite, Lightning)).value);
  }

  // ---------- One withdrawal from an empty account ----------

  /** The updates: the user joins and asks for a withdrawal. */
  function OverdraftRun(invite: Uuid, w: W.WithdrawalRequestInfo): seq<Step> {
    [JoinSteps(w.user, invite).0, JoinSteps(w.user, invite).1, StepOf(CreateWithdrawalRequest(w), None)]
  }

  lemma EmptyAccountOverdrawn(s: State, w: W.WithdrawalRequestInfo)
    requires JustJoined(s, w.user) && w.address.Currency() in DEFAULT_CURRENCIES && w.requestType.OverLimit?
    ensures var c, after := w.address.Currency(), WithdrawalCreated(s, 0, w);
      && after.Ok?
      && Has(after.value.state, w.user, c)
      && Net(Account(after.value.state, w.user, c)) == -(w.amount as int)
  {
    var info := NewAccount(w.address.Currency());
    SumUpdate(info.withdrawalRequests, w.id, W.NewRequest(0, w), CostOf());
    assert Net(info) == 0;
  }

  /**
   A new user asks for what he does not have, over the limit: the request is accepted and the
   exact balance is minus the amount. The balance the custody reports is then zero, unless
   more than 2^63 was asked for: then the sum wraps around, to a balance nobody ever paid in.
   */
  lemma EmptyAccountPaysOut(network: Network, now: Time, invite: Uuid, w: W.WithdrawalRequestInfo)
    requires w.address.Currency() in DEFAULT_CURRENCIES && w.requestType.OverLimit?
    ensures var s, c := Run(NewState(network, now), OverdraftRun(invite, w)), w.address.Currency();
      && Has(s, w.user, c)
      && Net(Account(s, w.user, c)) == -(w.amount as int)
      && Balance(Account(s, w.user, c)) == if w.amount > TWO_TO_THE_63 then TWO_TO_THE_64 - w.amount else 0
  {
    hide JustJoined, Advance, NewState, Net, WithdrawalCreated;
    var s0, steps := NewState(network, now), OverdraftRun(invite, w);
    RunThree(s0, steps);
    JoinRun(network, now, w.user, invite);
    var joined := Advance(Advance(s0, steps[0]), steps[1]);
    EmptyAccountOverdrawn(joined, w);
    var asked := WithdrawalCreated(joined, 0, w).value.state;
    AdvanceIs(joined, steps[2], asked);
    ClampedIs(-(w.amount as int));
  }
}
