/**
 The second quorum check. The hot wallet forwards a confirmed request with its signatures
 to the Bitcoin module, which counts the ones that verify for itself before it pays.
 Signature verification is a parameter: a predicate on key, message and signature.
 */
module Quorum {
  import opened Domain
  import opened Accounts
  import opened Updates
  import opened StateMachine
  import opened Invariants
  import opened Runs
  import opened Requests
  import W = Withdrawals
  import L = Limits

  const WITHDRAWAL_CONFIRM_URI := "/confirm"
  const WITHDRAWAL_REJECT_URI := "/reject"

  /** What an operator signs: the endpoint, the payment as shown, and a nonce. */
  datatype ConfirmationData = ConfirmationData(id: Uuid, user: UserId, address: CurrencyAddress, createdAt: string,
    amount: u64)

  datatype Message = Message(url: string, data: ConfirmationData, nonce: u64)

  datatype ConfirmedWithdrawal = ConfirmedWithdrawal(
    id: Uuid, user: UserId, address: CurrencyAddress, createdAt: string, amount: u64,
    confirmations: seq<SignatureData>, rejections: seq<SignatureData>)
  {
    function Data(): ConfirmationData {
      ConfirmationData(id, user, address, createdAt, amount)
    }
  }

  type Verifier = (PublicKey, Message, Signature) -> bool

  datatype WithdrawCfg = WithdrawCfg(minConfirmations: int, opPublicKeys: seq<PublicKey>, hotDomain: string)
  {
    function ConfirmUrl(): string { hotDomain + WITHDRAWAL_CONFIRM_URI }
    function RejectUrl(): string { hotDomain + WITHDRAWAL_REJECT_URI }
  }

  /** `verify_signature(..).is_ok()` */
  predicate Valid(cfg: WithdrawCfg, verifies: Verifier, url: string, data: ConfirmationData, s: SignatureData) {
    s.publicKey in cfg.opPublicKeys && verifies(s.publicKey, Message(url, data, s.nonce), s.signature)
  }

  function ValidOnly(cfg: WithdrawCfg, verifies: Verifier, url: string, data: ConfirmationData,
                     sigs: seq<SignatureData>): (r: seq<SignatureData>)
    ensures forall s :: s in r <==> s in sigs && Valid(cfg, verifies, url, data, s)
    ensures |r| <= |sigs|
  {
    if sigs == [] then []
    else ValidOnly(cfg, verifies, url, data, sigs[..|sigs| - 1])
         + if Valid(cfg, verifies, url, data, sigs[|sigs| - 1]) then [sigs[|sigs| - 1]] else []
  }

  function ValidConfirms(cfg: WithdrawCfg, verifies: Verifier, cw: ConfirmedWithdrawal): seq<SignatureData> {
    ValidOnly(cfg, verifies, cfg.ConfirmUrl(), cw.Data(), cw.confirmations)
  }

  function ValidRejects(cfg: WithdrawCfg, verifies: Verifier, cw: ConfirmedWithdrawal): seq<SignatureData> {
    ValidOnly(cfg, verifies, cfg.RejectUrl(), cw.Data(), cw.rejections)
  }

  predicate Accepts(cfg: WithdrawCfg, verifies: Verifier, cw: ConfirmedWithdrawal) {
    var confirms, rejects := |ValidConfirms(cfg, verifies, cw)|, |ValidRejects(cfg, verifies, cw)|;
    confirms > rejects && confirms - rejects >= cfg.minConfirmations
  }

  /** What the Bitcoin module does with a withdrawal before it talks to the node. */
  datatype Verdict = Forbidden | NotBtc | Send(address: string, amount: u64)

  method CountValid(cfg: WithdrawCfg, verifies: Verifier, url: string, data: ConfirmationData, sigs: seq<SignatureData>)
    returns (count: nat)
    ensures count == |ValidOnly(cfg, verifies, url, data, sigs)|
  {
    count := 0;
    for i := 0 to |sigs|
      invariant count == |ValidOnly(cfg, verifies, url, data, sigs[..i])|
    {
      assert sigs[..i + 1][..i] == sigs[..i];
      if sigs[i].publicKey in cfg.opPublicKeys
        && verifies(sigs[i].publicKey, Message(url, data, sigs[i].nonce), sigs[i].signature) {
        count := count + 1;
      }
    }
    assert sigs[..|sigs|] == sigs;
  }

  /** Refused below the quorum; otherwise paid if the address is a Bitcoin address the module can parse. */
  ghost predicate IsVerdict(cfg: WithdrawCfg, verifies: Verifier, parses: string -> bool, cw: ConfirmedWithdrawal,
                            v: Verdict) {
    && (v == Forbidden <==> !Accepts(cfg, verifies, cw))
    && (v.Send? <==> Accepts(cfg, verifies, cw) && cw.address.BtcAddress? && parses(cw.address.addr))
    && (v.Send? ==> v.address == cw.address.addr && v.amount == cw.amount)
  }

  /** `withdraw_btc` up to the call to the node; `parses` says which strings are Bitcoin addresses. */
  method WithdrawBtc(cfg: WithdrawCfg, verifies: Verifier, parses: string -> bool, cw: ConfirmedWithdrawal)
    returns (v: Verdict)
    ensures IsVerdict(cfg, verifies, parses, cw, v)
  {
    var validConfirms := CountValid(cfg, verifies, cfg.ConfirmUrl(), cw.Data(), cw.confirmations);
    var validRejections := CountValid(cfg, verifies, cfg.RejectUrl(), cw.Data(), cw.rejections);
    if validConfirms > validRejections && validConfirms - validRejections >= cfg.minConfirmations {
      if cw.address.BtcAddress? && parses(cw.address.addr) {
        return Send(cw.address.addr, cw.amount);
      }
      return NotBtc;
    }
    return Forbidden;
  }

  // ---------- From a stored request to the second check ----------

  function SignatureList(ds: seq<W.WithdrawalRequestDecision>): (r: seq<SignatureData>)
    ensures |r| == |ds|
    ensures forall i :: 0 <= i < |ds| ==> r[i] == ds[i].ToSignatureData()
  {
    seq(|ds|, i requires 0 <= i < |ds| => ds[i].ToSignatureData())
  }

  /** What the hot wallet sends for a request; `format` is how it prints the creation time. */
  function FromRequest(req: W.WithdrawalRequest, format: Time -> string): ConfirmedWithdrawal {
    ConfirmedWithdrawal(req.id, req.user, req.address, format(req.createdAt), req.amount,
                        SignatureList(req.confirmations), SignatureList(req.rejections))
  }

  /** Every stored confirmation verifies against the payment being sent. */
  ghost predicate ConfirmationsVerify(cfg: WithdrawCfg, verifies: Verifier, cw: ConfirmedWithdrawal) {
    forall s :: s in cw.confirmations ==> Valid(cfg, verifies, cfg.ConfirmUrl(), cw.Data(), s)
  }

  lemma {:induction false} AllValid(cfg: WithdrawCfg, verifies: Verifier, url: string, data: ConfirmationData,
                                    sigs: seq<SignatureData>)
    requires forall s :: s in sigs ==> Valid(cfg, verifies, url, data, s)
    ensures ValidOnly(cfg, verifies, url, data, sigs) == sigs
  {
    hide Valid;
    if sigs != [] {
      var init, last := sigs[..|sigs| - 1], sigs[|sigs| - 1];
      assert last in sigs && sigs == init + [last];
      AllValid(cfg, verifies, url, data, init);
    }
  }

  /** A request the ledger confirmed passes the second check, at threshold two, if its confirmations verify. */
  lemma LedgerQuorumSuffices(cfg: WithdrawCfg, verifies: Verifier, req: W.WithdrawalRequest, format: Time -> string)
    requires cfg.minConfirmations == W.REQUIRED_NUMBER_OF_CONFIRMATIONS
    requires |req.confirmations| - |req.rejections| == W.REQUIRED_NUMBER_OF_CONFIRMATIONS
    requires ConfirmationsVerify(cfg, verifies, FromRequest(req, format))
    ensures Accepts(cfg, verifies, FromRequest(req, format))
  {
    var cw := FromRequest(req, format);
    AllValid(cfg, verifies, cfg.ConfirmUrl(), cw.Data(), cw.confirmations);
  }

  /** From the step that announces a confirmation on: the request stays as it was confirmed. */
  lemma AnnouncedStaysAccepted(cfg: WithdrawCfg, verifies: Verifier, format: Time -> string,
                              s: State, step: Step, steps: seq<Step>, id: Uuid, found: Option<W.WithdrawalRequest>)
    requires cfg.minConfirmations == W.REQUIRED_NUMBER_OF_CONFIRMATIONS
    requires StateOk(s) && SnapshotIsCurrent(s, step.update.body) && WithdrawConfirmed(id) in Emits(s, step)
    requires var now := Advance(s, step);
      && SnapshotsCurrent(now, steps)
      && NotRecreated(steps, step.update.body.vote.userId, step.update.body.vote.currency, id)
      && UniqueIds(Run(now, steps)) && ScanResult(Run(now, steps), id, found)
      && RequestAt(Run(now, steps), step.update.body.vote.userId, step.update.body.vote.currency, id)
    requires found.Some? ==> ConfirmationsVerify(cfg, verifies, FromRequest(found.value, format))
    ensures found.Some? && Accepts(cfg, verifies, FromRequest(found.value, format))
  {
    AnnouncementConfirms(s, step, id);
    var now, u, c := Advance(s, step), step.update.body.vote.userId, step.update.body.vote.currency;
    CurrentSnapshotOk(s, step.update.body);
    StepKeepsOk(s, step.update, step.nd);
    StoredVotesOk(now, u, c, id);
    DecidedRequestsAreFrozen(now, steps, u, c, id);
    RunStateOk(now, steps);
    ScanAgreesWithLookup(Run(now, steps), u, c, id, found);
    LedgerQuorumSuffices(cfg, verifies, found.value, format);
  }

  /** An id created early is not created again. */
  lemma NotCreatedAgain(steps: seq<Step>, n: nat, u: UserId, c: Currency, id: Uuid)
    requires n <= |steps| && FreshIds(steps) && id in CreatedIds(steps[..n])
    ensures NotRecreated(steps[n..], u, c, id)
  {
    var step :| step in steps[..n] && step.update.body.CreateWithdrawalRequest?
      && step.update.body.withdrawal.id == id;
    var i :| 0 <= i < n && steps[i] == step;
    forall later | later in steps[n..] ensures !IsCreationOf(later.update.body, u, c, id) {
      var j :| 0 <= j < |steps[n..]| && steps[n..][j] == later;
      assert steps[n + j] == later;
    }
  }

  /** What is stored under an id no step created was stored there all along. */
  lemma {:induction false} StoredBefore(s: State, steps: seq<Step>, u: UserId, c: Currency, id: Uuid)
    requires SnapshotsCurrent(s, steps) && NotRecreated(steps, u, c, id) && RequestAt(Run(s, steps), u, c, id)
    ensures RequestAt(s, u, c, id)
    decreases |steps|
  {
    hide Apply, Advance, RequestAt;
    if steps != [] {
      var init, last := steps[..|steps| - 1], steps[|steps| - 1];
      SnapshotsCurrentPrefix(s, steps);
      assert last in steps;
      StepOrigins(Run(s, init), last, u, c, id);
      StoredBefore(s, init, u, c, id);
    }
  }

  lemma CreatedIdsPrefix(steps: seq<Step>, n: nat)
    requires n <= |steps| && FreshIds(steps)
    ensures FreshIds(steps[..n])
  {}

  /** Right after the announcement the id is one of those created, stored in one place only. */
  lemma AnnouncedWasCreated(s0: State, steps: seq<Step>, k: nat, id: Uuid)
    requires StateOk(s0) && NoRequests(s0) && FreshIds(steps) && SnapshotsCurrent(s0, steps)
    requires k < |steps| && WithdrawConfirmed(id) in Emits(Run(s0, steps[..k]), steps[k])
    ensures StateOk(Run(s0, steps[..k])) && SnapshotIsCurrent(Run(s0, steps[..k]), steps[k].update.body)
    ensures var now := Run(s0, steps[..k + 1]);
      && now == Advance(Run(s0, steps[..k]), steps[k])
      && UniqueIds(now) && id in CreatedIds(steps[..k + 1])
      && steps[k].update.body.WithdrawalRequestDecision?
      && RequestAt(now, steps[k].update.body.vote.userId, steps[k].update.body.vote.currency, id)
  {
    hide StateOk, SnapshotIsCurrent, CreatedIds, FreshIds, Apply, Advance, Emits, RequestAt, UniqueIds;
    var init := steps[..k + 1];
    assert init[..k] == steps[..k] && init[|init| - 1] == steps[k];
    SnapshotsCurrentSplit(s0, steps, k + 1);
    SnapshotsCurrentPrefix(s0, init);
    RunStateOk(s0, steps[..k]);
    CreatedIdsPrefix(steps, k + 1);
    ConfirmedAtMostOnce(s0, init);
    AnnouncementConfirms(Run(s0, steps[..k]), steps[k], id);
  }

  /**
   End to end, from a custody without requests: a step announces a confirmation, the run goes
   on, the results worker scans for the request in whatever state it then meets, and what it
   forwards is accepted. The scan comes back empty only if the request went away with its account.
   */
  lemma AnnouncedIsAccepted(cfg: WithdrawCfg, verifies: Verifier, format: Time -> string,
                            s0: State, steps: seq<Step>, k: nat, id: Uuid, found: Option<W.WithdrawalRequest>)
    requires cfg.minConfirmations == W.REQUIRED_NUMBER_OF_CONFIRMATIONS
    requires StateOk(s0) && NoRequests(s0) && FreshIds(steps) && SnapshotsCurrent(s0, steps)
    requires k < |steps| && WithdrawConfirmed(id) in Emits(Run(s0, steps[..k]), steps[k])
    requires ScanResult(Run(s0, steps), id, found)
    requires found.Some? ==> ConfirmationsVerify(cfg, verifies, FromRequest(found.value, format))
    ensures steps[k].update.body.WithdrawalRequestDecision?
    ensures var d := steps[k].update.body.vote;
      found.Some? <==> RequestAt(Run(s0, steps), d.userId, d.currency, id)
    ensures found.Some? ==> Accepts(cfg, verifies, FromRequest(found.value, format))
  {
    hide StateOk, SnapshotIsCurrent, CreatedIds, FreshIds, Apply, Advance, Emits, RequestAt;
    hide Run, SnapshotsCurrent, NotRecreated, ConfirmationsVerify, Accepts;
    AnnouncedWasCreated(s0, steps, k, id);
    var now, rest, d := Run(s0, steps[..k + 1]), steps[k + 1..], steps[k].update.body.vote;
    RunSplits(s0, steps, k + 1);
    SnapshotsCurrentSplit(s0, steps, k + 1);
    ConfirmedAtMostOnce(s0, steps);
    NotCreatedAgain(steps, k + 1, d.userId, d.currency, id);
    if found.Some? {
      var u, c :| RequestAt(Run(now, rest), u, c, id) && RequestOf(Run(now, rest), u, c, id) == found.value;
      NotCreatedAgain(steps, k + 1, u, c, id);
      StoredBefore(now, rest, u, c, id);
      assert u == d.userId && c == d.currency;
      AnnouncedStaysAccepted(cfg, verifies, format, Run(s0, steps[..k]), steps[k], rest, id, found);
    }
  }

  /** The request a run created under an id, wherever it is stored later. */
  lemma FoundAsCreated(s0: State, steps: seq<Step>, i: nat, id: Uuid, req: W.WithdrawalRequest)
    requires NoRequests(s0) && FreshIds(steps) && SnapshotsCurrent(s0, steps) && i < |steps|
    requires steps[i].update.body.CreateWithdrawalRequest? && steps[i].update.body.withdrawal.id == id
    requires ScanResult(Run(s0, steps), id, Some(req))
    ensures AsCreated(req, steps[i].update.created, steps[i].update.body.withdrawal)
  {
    hide SnapshotsCurrent, Run;
    var u, c :| RequestAt(Run(s0, steps), u, c, id) && RequestOf(Run(s0, steps), u, c, id) == req;
    var j := StoredAsCreated(s0, steps, u, c, id);
    assert i == j;
  }

  /**
   The payment forwarded is the payment requested. From the creation of a request to the Bitcoin
   module's verdict: what the operators are shown to have signed carries the id, the user, the
   address and the amount the user asked for, and the verdict is to send that amount to that address.
   */
  lemma PaidAsRequested(cfg: WithdrawCfg, verifies: Verifier, parses: string -> bool, format: Time -> string,
                        s0: State, steps: seq<Step>, i: nat, k: nat, found: W.WithdrawalRequest, v: Verdict)
    requires cfg.minConfirmations == W.REQUIRED_NUMBER_OF_CONFIRMATIONS
    requires StateOk(s0) && NoRequests(s0) && FreshIds(steps) && SnapshotsCurrent(s0, steps)
    requires i < |steps| && k < |steps| && steps[i].update.body.CreateWithdrawalRequest?
    requires var id := steps[i].update.body.withdrawal.id;
      && WithdrawConfirmed(id) in Emits(Run(s0, steps[..k]), steps[k])
      && ScanResult(Run(s0, steps), id, Some(found))
    requires ConfirmationsVerify(cfg, verifies, FromRequest(found, format))
    requires IsVerdict(cfg, verifies, parses, FromRequest(found, format), v)
    ensures var w, created := steps[i].update.body.withdrawal, steps[i].update.created;
      && FromRequest(found, format).Data() == ConfirmationData(w.id, w.user, w.address, format(created), w.amount)
      && v == (if w.address.BtcAddress? && parses(w.address.addr) then Send(w.address.addr, w.amount) else NotBtc)
  {
    hide StateOk, FreshIds, SnapshotsCurrent, Run, Emits, Accepts, ConfirmationsVerify, NoRequests, ScanResult;
    var id := steps[i].update.body.withdrawal.id;
    FoundAsCreated(s0, steps, i, id, found);
    AnnouncedIsAccepted(cfg, verifies, format, s0, steps, k, id, Some(found));
  }

  // ---------- Whose signatures are forwarded ----------

  /** The signature is that of the last vote its operator cast, and that vote went this way. */
  ghost predicate OwnLastVote(votes: seq<W.WithdrawalRequestDecisionInfo>, s: SignatureData, t: DecisionType) {
    exists n :: 0 <= n < |votes| && IsLastBy(votes, n, s.publicKey)
      && votes[n].decisionType == t && votes[n].signature == s.signature && votes[n].nonce == s.nonce
  }

  ghost predicate IsLastBy(votes: seq<W.WithdrawalRequestDecisionInfo>, n: int, key: PublicKey) {
    && 0 <= n < |votes| && votes[n].publicKey == key
    && forall m :: n < m < |votes| ==> votes[m].publicKey != key
  }

  lemma {:induction false} LastCastIs(votes: seq<W.WithdrawalRequestDecisionInfo>, n: nat, key: PublicKey)
    requires IsLastBy(votes, n, key)
    ensures W.LastCast(votes, key) == Some(votes[n])
  {
    if n < |votes| - 1 {
      LastCastIs(votes[..|votes| - 1], n, key);
    }
  }

  lemma {:induction false} LastCastAt(votes: seq<W.WithdrawalRequestDecisionInfo>, key: PublicKey) returns (n: nat)
    requires W.LastCast(votes, key).Some?
    ensures IsLastBy(votes, n, key) && W.LastCast(votes, key) == Some(votes[n])
  {
    n := |votes| - 1;
    if votes[n].publicKey != key {
      n := LastCastAt(votes[..n], key);
    }
  }

  lemma ListedIff(ds: seq<W.WithdrawalRequestDecision>, votes: seq<W.WithdrawalRequestDecisionInfo>, t: DecisionType,
                  s: SignatureData)
    requires W.SignedBy(ds, votes, t) && (s.publicKey in W.Keys(ds) <==> W.LastVote(votes, s.publicKey) == Some(t))
    ensures s in SignatureList(ds) <==> OwnLastVote(votes, s, t)
  {
    var sigs := SignatureList(ds);
    if s in sigs {
      var i :| 0 <= i < |sigs| && sigs[i] == s;
      assert ds[i] in ds;
      var n := LastCastAt(votes, s.publicKey);
    }
    if OwnLastVote(votes, s, t) {
      var n :| 0 <= n < |votes| && IsLastBy(votes, n, s.publicKey)
        && votes[n].decisionType == t && votes[n].signature == s.signature && votes[n].nonce == s.nonce;
      LastCastIs(votes, n, s.publicKey);
      var d :| d in ds && d.publicKey == s.publicKey;
      var i :| 0 <= i < |ds| && ds[i] == d;
      assert sigs[i] == s;
    }
  }

  /**
   In every reachable state what would be forwarded for a request are exactly the signatures, with
   their nonces, of the operators' own last votes on it since its creation, each on its side.
   */
  lemma ForwardedAreVoters(s0: State, steps: seq<Step>, u: UserId, c: Currency, id: Uuid, format: Time -> string,
                           s: SignatureData)
    requires StateOk(s0) && NoRequests(s0) && SnapshotsCurrent(s0, steps) && RequestAt(Run(s0, steps), u, c, id)
    ensures var cw, votes := FromRequest(RequestOf(Run(s0, steps), u, c, id), format), VotesOn(s0, steps, u, c, id);
      && (s in cw.confirmations <==> OwnLastVote(votes, s, Confirm))
      && (s in cw.rejections <==> OwnLastVote(votes, s, Reject))
  {
    hide StateOk, NoRequests, SnapshotsCurrent, Run, VotesOn, OwnLastVote, W.SignedBy, W.LastVote;
    VotesSignedRun(s0, steps, u, c, id);
    VotesSummariseRun(s0, steps, u, c, id, s.publicKey);
    var req, votes := RequestOf(Run(s0, steps), u, c, id), VotesOn(s0, steps, u, c, id);
    ListedIff(req.confirmations, votes, Confirm, s);
    ListedIff(req.rejections, votes, Reject, s);
  }

  function KeysOf(sigs: seq<SignatureData>): set<PublicKey> {
    set s | s in sigs :: s.publicKey
  }

  lemma {:induction false} ValidOnlyDistinct(cfg: WithdrawCfg, verifies: Verifier, url: string,
                                             data: ConfirmationData, sigs: seq<SignatureData>)
    requires L.DistinctSigners(sigs)
    ensures L.DistinctSigners(ValidOnly(cfg, verifies, url, data, sigs))
  {
    if sigs != [] {
      var init, last := sigs[..|sigs| - 1], sigs[|sigs| - 1];
      ValidOnlyDistinct(cfg, verifies, url, data, init);
      assert forall s :: s in init ==> s.publicKey != last.publicKey;
    }
  }

  lemma {:induction false} DistinctCount(sigs: seq<SignatureData>)
    requires L.DistinctSigners(sigs)
    ensures |KeysOf(sigs)| == |sigs|
  {
    if sigs != [] {
      var init, last := sigs[..|sigs| - 1], sigs[|sigs| - 1];
      DistinctCount(init);
      assert last.publicKey !in KeysOf(init);
      assert sigs == init + [last];
      assert KeysOf(sigs) == KeysOf(init) + {last.publicKey};
    }
  }

  /** One of the stored decisions is this operator's, and its signature verifies for this endpoint and this payment. */
  ghost predicate SignedFor(verifies: Verifier, ds: seq<W.WithdrawalRequestDecision>, url: string,
                            data: ConfirmationData, key: PublicKey) {
    exists d :: d in ds && d.publicKey == key && verifies(key, Message(url, data, d.nonce), d.signature)
  }

  /** The listed operators whose stored decision on this side verifies. */
  ghost function Signers(cfg: WithdrawCfg, verifies: Verifier, ds: seq<W.WithdrawalRequestDecision>, url: string,
                         data: ConfirmationData): set<PublicKey> {
    set k | k in W.Keys(ds) && k in cfg.opPublicKeys && SignedFor(verifies, ds, url, data, k)
  }

  /** The keys of the valid signatures are those operators, each once. */
  lemma ValidAreSigners(cfg: WithdrawCfg, verifies: Verifier, ds: seq<W.WithdrawalRequestDecision>, url: string,
                        data: ConfirmationData)
    requires W.DistinctKeys(ds)
    ensures var valid := ValidOnly(cfg, verifies, url, data, SignatureList(ds));
      KeysOf(valid) == Signers(cfg, verifies, ds, url, data) && |valid| == |Signers(cfg, verifies, ds, url, data)|
  {
    var sigs := SignatureList(ds);
    var valid := ValidOnly(cfg, verifies, url, data, sigs);
    ValidOnlyDistinct(cfg, verifies, url, data, sigs);
    DistinctCount(valid);
    forall k ensures k in KeysOf(valid) <==> k in Signers(cfg, verifies, ds, url, data) {
      if k in KeysOf(valid) {
        var s :| s in valid && s.publicKey == k;
        var i :| 0 <= i < |sigs| && sigs[i] == s;
        assert ds[i] in ds;
      }
      if k in Signers(cfg, verifies, ds, url, data) {
        var d :| d in ds && d.publicKey == k && verifies(k, Message(url, data, d.nonce), d.signature);
        var i :| 0 <= i < |ds| && ds[i] == d;
        assert sigs[i] in sigs && Valid(cfg, verifies, url, data, sigs[i]);
      }
    }
  }

  /**
   The second check on anything the ledger built, in both directions: it accepts exactly when the
   listed operators whose confirmation verifies for this very payment outnumber those whose
   rejection does, by the threshold.
   */
  lemma AcceptanceMeansQuorum(cfg: WithdrawCfg, verifies: Verifier, req: W.WithdrawalRequest, format: Time -> string)
    requires W.VotesOk(req)
    ensures var data := ConfirmationData(req.id, req.user, req.address, format(req.createdAt), req.amount);
      var confirming := Signers(cfg, verifies, req.confirmations, cfg.hotDomain + "/confirm", data);
      var rejecting := Signers(cfg, verifies, req.rejections, cfg.hotDomain + "/reject", data);
      Accepts(cfg, verifies, FromRequest(req, format)) <==>
        |confirming| > |rejecting| && |confirming| - |rejecting| >= cfg.minConfirmations
  {
    hide Signers, ValidOnly;
    var cw := FromRequest(req, format);
    ValidAreSigners(cfg, verifies, req.confirmations, cfg.ConfirmUrl(), cw.Data());
    ValidAreSigners(cfg, verifies, req.rejections, cfg.RejectUrl(), cw.Data());
  }
}
