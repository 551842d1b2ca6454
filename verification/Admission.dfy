/**
 Over whole runs: an invite admits one user, and an address given to an account stays with it.
 */
module Admission {
  import opened Domain
  import opened Accounts
  import opened Updates
  import opened StateMachine
  import opened Runs
  import opened Requests
  import opened Frames

  // ---------- Invites ----------

  /** How an accepted update moves the open invites: a sign-up uses its own up, a new invite opens, nothing else. */
  ghost predicate InvitesMove(before: map<Uuid, InviteRec>, after: map<Uuid, InviteRec>, body: UpdateBody) {
    && (forall invite :: invite in after <==>
          if body.Signup? then invite in before && invite != body.signup.invite
          else if body.GenInvite? then invite in before || invite == body.invite.invite
          else if body.Snapshot? then invite in body.snapshot.invites
          else invite in before)
    && (!body.Snapshot? ==> forall invite :: invite in after ==>
          after[invite] == if body.GenInvite? && invite == body.invite.invite then body.invite else before[invite])
  }

  lemma UserStepInvites(s: State, upd: StateUpdate, nd: Nondet)
    requires AboutUsers(upd.body) && HandleUser(s, upd.created, upd.body, nd).Ok?
    ensures InvitesMove(s.invites, HandleUser(s, upd.created, upd.body, nd).value.invites, upd.body)
  {}

  lemma OtherStepInvites(s: State, upd: StateUpdate, nd: Nondet)
    requires !AboutUsers(upd.body) && HandleOther(s, upd.created, upd.body, nd).Ok?
    ensures InvitesMove(s.invites, HandleOther(s, upd.created, upd.body, nd).value.state.invites, upd.body)
  {}

  lemma StepInvites(s: State, upd: StateUpdate, nd: Nondet)
    requires Apply(s, upd, nd).Ok?
    ensures InvitesMove(s.invites, Apply(s, upd, nd).value.state.invites, upd.body)
  {
    hide InvitesMove;
    ApplyStamps(s, upd, nd);
    if AboutUsers(upd.body) {
      UserStepInvites(s, upd, nd);
    } else {
      OtherStepInvites(s, upd, nd);
    }
  }

  /** A sign-up is accepted exactly with a free name and an open invite; it adds that user and no other. */
  lemma SignupAcceptedIff(s: State, created: Time, i: SignupInfo)
    ensures SignedUp(s, created, i).Ok? <==> i.username !in s.users && i.invite in s.invites
    ensures SignedUp(s, created, i).Err? ==>
      SignedUp(s, created, i) == Err(
        if i.username in s.users then UserAlreadyExists(i.username) else InviteNotFound)
    ensures SignedUp(s, created, i).Ok? ==>
      var after := SignedUp(s, created, i).value.users;
      && after.Keys == s.users.Keys + {i.username}
      && (forall u :: u in s.users ==> after[u] == s.users[u])
      && var user := after[i.username];
      && user.username == i.username && user.auth == i.auth && user.invite == i.invite && user.createdAt == created
      && user.currencies.Keys == DEFAULT_CURRENCIES && user.limitChangeRequests == map[]
  {}

  lemma SignupNeedsInvite(s: State, step: Step)
    requires step.update.body.Signup? && Apply(s, step.update, step.nd).Ok?
    ensures step.update.body.signup.invite in s.invites
    ensures step.update.body.signup.invite !in Advance(s, step).invites
  {
    StepInvites(s, step.update, step.nd);
  }

  /** The update opens the invite: it generates it, or is a snapshot that lists it. */
  predicate Reissues(body: UpdateBody, invite: Uuid) {
    || (body.GenInvite? && body.invite.invite == invite)
    || (body.Snapshot? && invite in body.snapshot.invites)
  }

  ghost predicate ReissuedBetween(s: State, steps: seq<Step>, invite: Uuid, i: int, j: int) {
    exists k :: 0 <= i < k < j <= |steps| && Reissues(steps[k].update.body, invite)
      && Apply(Run(s, steps[..k]), steps[k].update, steps[k].nd).Ok?
  }

  /** An invite closed after step `i` is still closed before step `j`, or was opened again in between. */
  lemma {:induction false} ClosedUntilReissued(s: State, steps: seq<Step>, invite: Uuid, i: nat, j: nat)
    requires i < j <= |steps| && invite !in Run(s, steps[..i + 1]).invites
    ensures invite !in Run(s, steps[..j]).invites || ReissuedBetween(s, steps, invite, i, j)
    decreases j
  {
    hide Apply;
    if i + 1 < j {
      var k := j - 1;
      ClosedUntilReissued(s, steps, invite, i, k);
      assert steps[..j][..k] == steps[..k];
      var before := Run(s, steps[..k]);
      if Apply(before, steps[k].update, steps[k].nd).Ok? {
        StepInvites(before, steps[k].update, steps[k].nd);
        assert invite in Advance(before, steps[k]).invites && invite !in before.invites ==>
          Reissues(steps[k].update.body, invite);
      }
      if ReissuedBetween(s, steps, invite, i, k) {
        var m :| i < m < k && Reissues(steps[m].update.body, invite)
          && Apply(Run(s, steps[..m]), steps[m].update, steps[m].nd).Ok?;
        assert i < m < j;
      }
    }
  }

  /** Two users come in on one invite only if it was generated again in between. */
  lemma InviteAdmitsOne(s: State, steps: seq<Step>, i: nat, j: nat)
    requires i < j < |steps| && steps[i].update.body.Signup? && steps[j].update.body.Signup?
    requires steps[i].update.body.signup.invite == steps[j].update.body.signup.invite
    requires Apply(Run(s, steps[..i]), steps[i].update, steps[i].nd).Ok?
    requires Apply(Run(s, steps[..j]), steps[j].update, steps[j].nd).Ok?
    ensures ReissuedBetween(s, steps, steps[i].update.body.signup.invite, i, j)
  {
    hide Apply, ReissuedBetween;
    assert steps[..i + 1][..i] == steps[..i];
    SignupNeedsInvite(Run(s, steps[..i]), steps[i]);
    ClosedUntilReissued(s, steps, steps[i].update.body.signup.invite, i, j);
    SignupNeedsInvite(Run(s, steps[..j]), steps[j]);
  }

  // ---------- Deposit addresses ----------

  /** An address is accepted exactly by an account that is there and does not have it yet; it then has it too. */
  lemma AddressAcceptedIff(s: State, u: UserId, a: CurrencyAddress)
    ensures DepositAddressAdded(s, u, a).Ok? <==>
      Has(s, u, a.Currency()) && a !in Account(s, u, a.Currency()).depositInfo
    ensures DepositAddressAdded(s, u, a).Err? ==>
      DepositAddressAdded(s, u, a) == Err(
        if u !in s.users then UserNotFound(u)
        else if !Has(s, u, a.Currency()) then UserMissingCurrency(u, a.Currency())
        else DepositAddressAlreadyAllocated(u, a))
    ensures DepositAddressAdded(s, u, a).Ok? ==>
      && Has(DepositAddressAdded(s, u, a).value, u, a.Currency())
      && forall b :: b in Account(DepositAddressAdded(s, u, a).value, u, a.Currency()).depositInfo
           <==> b == a || b in Account(s, u, a.Currency()).depositInfo
  {}

  lemma AddressStep(s: State, step: Step, u: UserId, a: CurrencyAddress)
    requires step.update.body == DepositAddress(u, a) && Apply(s, step.update, step.nd).Ok?
    ensures var s' := Advance(s, step); Has(s', u, a.Currency()) && a in Account(s', u, a.Currency()).depositInfo
  {
    AddressAcceptedIff(s, u, a);
  }

  /** While its account stays open, addresses are only ever added, behind those already there. */
  lemma {:induction false} AddressesStay(s: State, steps: seq<Step>, u: UserId, c: Currency)
    requires SnapshotsCurrent(s, steps) && Has(s, u, c)
    requires forall step :: step in steps ==> !Closes(step.update.body, u, c)
    ensures Has(Run(s, steps), u, c)
    ensures Account(s, u, c).depositInfo <= Account(Run(s, steps), u, c).depositInfo
    decreases |steps|
  {
    hide Apply;
    if steps != [] {
      var init, last := steps[..|steps| - 1], steps[|steps| - 1];
      SnapshotsCurrentPrefix(s, steps);
      AddressesStay(s, init, u, c);
      assert last in steps;
      if Apply(Run(s, init), last.update, last.nd).Ok? {
        StepFrame(Run(s, init), last.update, last.nd);
      }
    }
  }

  /** An address once given stays the account's: for good in Bitcoin and Ether, for a token while it is enabled. */
  lemma AddressIsKept(s: State, steps: seq<Step>, i: nat, u: UserId, a: CurrencyAddress)
    requires i < |steps| && SnapshotsCurrent(s, steps) && steps[i].update.body == DepositAddress(u, a)
    requires Apply(Run(s, steps[..i]), steps[i].update, steps[i].nd).Ok?
    requires a.Erc20Address? ==> forall j :: i < j < |steps| ==> !Closes(steps[j].update.body, u, a.Currency())
    ensures Has(Run(s, steps), u, a.Currency()) && a in Account(Run(s, steps), u, a.Currency()).depositInfo
    ensures OwnsAddress(Run(s, steps), u, a)
  {
    hide Apply, Run, SnapshotsCurrent, Advance;
    var now, rest := Run(s, steps[..i + 1]), steps[i + 1..];
    RunNext(s, steps, i);
    AddressStep(Run(s, steps[..i]), steps[i], u, a);
    SnapshotsCurrentSplit(s, steps, i + 1);
    RunSplits(s, steps, i + 1);
    forall step | step in rest ensures !Closes(step.update.body, u, a.Currency()) {
      var j :| 0 <= j < |rest| && rest[j] == step;
      assert steps[i + 1 + j] == step;
    }
    AddressesStay(now, rest, u, a.Currency());
  }
}
