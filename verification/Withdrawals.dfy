/**
 Withdrawal requests and the operators' vote on them.

 An operator may change a vote once cast: the signature then moves from one list
 to the other and the tally moves by two. `InProgress` carries the tally; the vote
 is decided when the tally lands on +2 or -2 exactly.
 */
module Withdrawals {
  import opened Domain

  const REQUIRED_NUMBER_OF_CONFIRMATIONS := 2

  datatype WithdrawalRequestStatus =
    | InProgress(tally: int)
    | Confirmed
    | Completed(confirmedAt: Time, txid: CurrencyTxId, fee: Option<u64>,
                inputAddresses: seq<CurrencyAddress>, outputAddresses: seq<CurrencyAddress>)
    | OpRejected
    | NodeRejected(reason: string)

  datatype WithdrawalRequestType = UnderLimit | OverLimit

  /** An operator's signed decision as stored in the request. */
  datatype WithdrawalRequestDecision = WithdrawalRequestDecision(
    url: string, signature: Signature, nonce: u64, publicKey: PublicKey)
  {
    function ToSignatureData(): SignatureData {
      SignatureData(signature, nonce, publicKey)
    }
  }

  /** An operator's decision as it arrives in an update. */
  datatype WithdrawalRequestDecisionInfo = WithdrawalRequestDecisionInfo(
    userId: UserId, currency: Currency, requestId: Uuid, url: string,
    signature: Signature, nonce: u64, publicKey: PublicKey, decisionType: DecisionType)
  {
    function Stored(): WithdrawalRequestDecision {
      WithdrawalRequestDecision(url, signature, nonce, publicKey)
    }
  }

  datatype WithdrawalRequestInfo = WithdrawalRequestInfo(
    id: Uuid, user: UserId, address: CurrencyAddress, amount: u64, requestType: WithdrawalRequestType)

  datatype WithdrawCompleteInfo = WithdrawCompleteInfo(
    id: Uuid, confirmedAt: Time, txid: CurrencyTxId, fee: Option<u64>,
    inputAddresses: seq<CurrencyAddress>, outputAddresses: seq<CurrencyAddress>)
  {
    function Status(): WithdrawalRequestStatus {
      Completed(confirmedAt, txid, fee, inputAddresses, outputAddresses)
    }
  }

  datatype WithdrawalRejectInfo = WithdrawalRejectInfo(id: Uuid, reason: string)

  datatype WithdrawalRequest = WithdrawalRequest(
    id: Uuid,
    user: UserId,
    address: CurrencyAddress,
    createdAt: Time,
    amount: u64,
    status: WithdrawalRequestStatus,
    confirmations: seq<WithdrawalRequestDecision>,
    rejections: seq<WithdrawalRequestDecision>,
    requestType: WithdrawalRequestType
  )
  {
    predicate IsRejected() {
      status.OpRejected? || status.NodeRejected?
    }

    /** Fee of a completed withdrawal. */
    function Fee(): Option<u64> {
      if status.Completed? then status.fee else None
    }

    /** What the request takes from the balance: amount plus fee, nothing once rejected. */
    function Cost(): int {
      if IsRejected() then 0 else amount + Fee().GetOr(0)
    }
  }

  function NewRequest(createdAt: Time, w: WithdrawalRequestInfo): WithdrawalRequest {
    WithdrawalRequest(w.id, w.user, w.address, createdAt, w.amount, InProgress(0), [], [], w.requestType)
  }

  // ---------- Voting ----------

  function Keys(ds: seq<WithdrawalRequestDecision>): (r: set<PublicKey>)
    ensures forall d :: d in ds ==> d.publicKey in r
  {
    set d | d in ds :: d.publicKey
  }

  ghost predicate DistinctKeys(ds: seq<WithdrawalRequestDecision>) {
    forall i, j :: 0 <= i < j < |ds| ==> ds[i].publicKey != ds[j].publicKey
  }

  /** `retain(|x| x.public_key != key)` */
  function Without(ds: seq<WithdrawalRequestDecision>, key: PublicKey): (r: seq<WithdrawalRequestDecision>)
    ensures forall d :: d in r <==> d in ds && d.publicKey != key
  {
    if ds == [] then []
    else Without(ds[..|ds| - 1], key) + if ds[|ds| - 1].publicKey != key then [ds[|ds| - 1]] else []
  }

  /** One operator decision on a request; the flag says whether it just confirmed the request. */
  function Vote(req: WithdrawalRequest, d: WithdrawalRequestDecisionInfo)
    : Result<(WithdrawalRequest, bool), StateUpdateErr>
  {
    var confirmed := d.publicKey in Keys(req.confirmations);
    var rejected := d.publicKey in Keys(req.rejections);
    match req.status
    case Completed(_, _, _, _, _) => Err(WithdrawalRequestAlreadyConfirmed(req.id))
    case Confirmed => Err(WithdrawalRequestAlreadyConfirmed(req.id))
    case OpRejected => Err(WithdrawalRequestAlreadyRejected(req.id))
    case NodeRejected(_) => Err(WithdrawalRequestAlreadyRejected(req.id))
    case InProgress(n) =>
      match d.decisionType
      case Confirm =>
        if confirmed then Err(WithdrawalRequestConfirmationDuplicate(d.requestId, d.publicKey))
        else
          var req' := req.(rejections := if rejected then Without(req.rejections, d.publicKey) else req.rejections,
                           confirmations := req.confirmations + [d.Stored()]);
          var m := if rejected then 2 else 1;
          if n == REQUIRED_NUMBER_OF_CONFIRMATIONS - m then Ok((req'.(status := Confirmed), true))
          else Ok((req'.(status := InProgress(n + m)), false))
      case Reject =>
        if rejected then Err(WithdrawalRequestRejectionDuplicate(d.requestId, d.publicKey))
        else
          var kept := if confirmed then Without(req.confirmations, d.publicKey) else req.confirmations;
          var req' := req.(confirmations := kept,
                           rejections := req.rejections + [d.Stored()]);
          var m := if confirmed then 2 else 1;
          if n == m - REQUIRED_NUMBER_OF_CONFIRMATIONS then Ok((req'.(status := OpRejected), false))
          else Ok((req'.(status := InProgress(n - m)), false))
  }

  /** `retain`: go through the list and keep what is signed by another key. */
  method Retain(ds: seq<WithdrawalRequestDecision>, key: PublicKey) returns (kept: seq<WithdrawalRequestDecision>)
    ensures kept == Without(ds, key)
  {
    kept := [];
    for i := 0 to |ds|
      invariant kept == Without(ds[..i], key)
    {
      assert ds[..i + 1][..i] == ds[..i];
      if ds[i].publicKey != key {
        kept := kept + [ds[i]];
      }
    }
    assert ds[..|ds|] == ds;
  }

  /** The vote as the ledger carries it out: lists edited first, then the tally compared. */
  method CastVote(req: WithdrawalRequest, d: WithdrawalRequestDecisionInfo)
    returns (r: Result<(WithdrawalRequest, bool), StateUpdateErr>)
    ensures r == Vote(req, d)
  {
    var confirmed := exists c :: c in req.confirmations && c.publicKey == d.publicKey;
    var rejected := exists c :: c in req.rejections && c.publicKey == d.publicKey;
    assert confirmed <==> d.publicKey in Keys(req.confirmations);
    assert rejected <==> d.publicKey in Keys(req.rejections);
    if req.status.Completed? || req.status.Confirmed? {
      return Err(WithdrawalRequestAlreadyConfirmed(req.id));
    }
    if req.status.OpRejected? || req.status.NodeRejected? {
      return Err(WithdrawalRequestAlreadyRejected(req.id));
    }
    var n, after := req.status.tally, req;
    match d.decisionType {
      case Confirm =>
        if confirmed {
          return Err(WithdrawalRequestConfirmationDuplicate(d.requestId, d.publicKey));
        }
        if rejected {
          var kept := Retain(after.rejections, d.publicKey);
          after := after.(rejections := kept);
        }
        after := after.(confirmations := after.confirmations + [d.Stored()]);
        var m := if rejected then 2 else 1;
        if n == REQUIRED_NUMBER_OF_CONFIRMATIONS - m {
          return Ok((after.(status := Confirmed), true));
        }
        return Ok((after.(status := InProgress(n + m)), false));
      case Reject =>
        if rejected {
          return Err(WithdrawalRequestRejectionDuplicate(d.requestId, d.publicKey));
        }
        if confirmed {
          var kept := Retain(after.confirmations, d.publicKey);
          after := after.(confirmations := kept);
        }
        after := after.(rejections := after.rejections + [d.Stored()]);
        var m := if confirmed then 2 else 1;
        if n == m - REQUIRED_NUMBER_OF_CONFIRMATIONS {
          return Ok((after.(status := OpRejected), false));
        }
        return Ok((after.(status := InProgress(n - m)), false));
    }
  }

  /** What the two lists and the tally always say about each other. */
  ghost predicate VotesOk(req: WithdrawalRequest) {
    && DistinctKeys(req.confirmations)
    && DistinctKeys(req.rejections)
    && Keys(req.confirmations) !! Keys(req.rejections)
    && var difference := |req.confirmations| - |req.rejections|;
    match req.status
    case InProgress(n) => n == difference
    case Confirmed => difference == REQUIRED_NUMBER_OF_CONFIRMATIONS
    case OpRejected => difference == -REQUIRED_NUMBER_OF_CONFIRMATIONS
    case Completed(_, _, _, _, _) => true
    case NodeRejected(_) => true
  }

  lemma KeysAppend(ds: seq<WithdrawalRequestDecision>, d: WithdrawalRequestDecision)
    ensures Keys(ds + [d]) == Keys(ds) + {d.publicKey}
  {}

  /** The last key of a distinct list is new. */
  lemma LastKeyIsNew(ds: seq<WithdrawalRequestDecision>)
    requires DistinctKeys(ds) && ds != []
    ensures var init, last := ds[..|ds| - 1], ds[|ds| - 1];
      last.publicKey !in Keys(init) && Keys(ds) == Keys(init) + {last.publicKey}
  {}

  /** Dropping a key drops it from the key set and, from a distinct list, drops one entry at most. */
  lemma WithoutKey(ds: seq<WithdrawalRequestDecision>, key: PublicKey)
    requires DistinctKeys(ds)
    ensures DistinctKeys(Without(ds, key))
    ensures Keys(Without(ds, key)) == Keys(ds) - {key}
    ensures |Without(ds, key)| == |ds| - if key in Keys(ds) then 1 else 0
  {
    WithoutDistinct(ds, key);
    WithoutCount(ds, key);
    forall k ensures k in Keys(Without(ds, key)) <==> k in Keys(ds) - {key} {
      if k in Keys(ds) - {key} {
        var d :| d in ds && d.publicKey == k;
        assert d in Without(ds, key);
      }
    }
  }

  lemma {:induction false} WithoutDistinct(ds: seq<WithdrawalRequestDecision>, key: PublicKey)
    requires DistinctKeys(ds)
    ensures DistinctKeys(Without(ds, key))
  {
    if ds != [] {
      var init, last := ds[..|ds| - 1], ds[|ds| - 1];
      WithoutDistinct(init, key);
      assert forall d :: d in init ==> d.publicKey != last.publicKey;
    }
  }

  lemma {:induction false} WithoutCount(ds: seq<WithdrawalRequestDecision>, key: PublicKey)
    requires DistinctKeys(ds)
    ensures |Without(ds, key)| == |ds| - if key in Keys(ds) then 1 else 0
  {
    if ds != [] {
      var init := ds[..|ds| - 1];
      WithoutCount(init, key);
      LastKeyIsNew(ds);
    }
  }

  /** A distinct list has as many entries as keys. */
  lemma {:induction false} KeysCount(ds: seq<WithdrawalRequestDecision>)
    requires DistinctKeys(ds)
    ensures |Keys(ds)| == |ds|
  {
    if ds != [] {
      var init := ds[..|ds| - 1];
      KeysCount(init);
      LastKeyIsNew(ds);
    }
  }

  /** The effect of an accepted vote on the two key sets: the voter's key ends on exactly one side. */
  lemma VoteMovesKey(req: WithdrawalRequest, d: WithdrawalRequestDecisionInfo)
    requires VotesOk(req) && Vote(req, d).Ok?
    ensures var r := Vote(req, d).value.0;
      && VotesOk(r)
      && var key, confirmed, rejected := {d.publicKey}, Keys(req.confirmations), Keys(req.rejections);
      && Keys(r.confirmations) == (if d.decisionType.Confirm? then confirmed + key else confirmed - key)
      && Keys(r.rejections) == (if d.decisionType.Reject? then rejected + key else rejected - key)
  {
    if d.decisionType.Confirm? {
      MoveKey(req.confirmations, req.rejections, d.Stored());
    } else {
      MoveKey(req.rejections, req.confirmations, d.Stored());
    }
  }

  /** Signing one list and leaving the other, on the lists alone. */
  lemma MoveKey(to: seq<WithdrawalRequestDecision>, from: seq<WithdrawalRequestDecision>, d: WithdrawalRequestDecision)
    requires DistinctKeys(to) && DistinctKeys(from) && Keys(to) !! Keys(from) && d.publicKey !in Keys(to)
    ensures var to', from' := to + [d], if d.publicKey in Keys(from) then Without(from, d.publicKey) else from;
      && DistinctKeys(to') && DistinctKeys(from')
      && Keys(to') == Keys(to) + {d.publicKey}
      && Keys(from') == Keys(from) - {d.publicKey}
      && |from'| == |from| - if d.publicKey in Keys(from) then 1 else 0
  {
    KeysAppend(to, d);
    WithoutKey(from, d.publicKey);
  }

  /** Votes change the lists and the status; the payment itself, and everything decided, stays. */
  lemma VoteFrame(req: WithdrawalRequest, d: WithdrawalRequestDecisionInfo)
    ensures Vote(req, d).Ok? ==>
      var (r, justConfirmed) := Vote(req, d).value;
      && req.status.InProgress?
      && r == req.(status := r.status, confirmations := r.confirmations, rejections := r.rejections)
      && (justConfirmed <==> r.status == Confirmed)
      && (r.status.InProgress? || r.status.Confirmed? || r.status.OpRejected?)
  {}

  /** Votes applied in turn; a refused vote changes nothing. */
  function VoteAll(req: WithdrawalRequest, ds: seq<WithdrawalRequestDecisionInfo>): WithdrawalRequest {
    if ds == [] then req
    else
      var before := VoteAll(req, ds[..|ds| - 1]);
      match Vote(before, ds[|ds| - 1])
      case Ok((after, _)) => after
      case Err(_) => before
  }

  /** The last vote an operator cast in a history. */
  function LastCast(history: seq<WithdrawalRequestDecisionInfo>, key: PublicKey)
    : (r: Option<WithdrawalRequestDecisionInfo>)
    ensures r.Some? ==> r.value.publicKey == key && r.value in history
  {
    if history == [] then None
    else if history[|history| - 1].publicKey == key then Some(history[|history| - 1])
    else LastCast(history[..|history| - 1], key)
  }

  /** Which way it went. */
  function LastVote(history: seq<WithdrawalRequestDecisionInfo>, key: PublicKey): Option<DecisionType> {
    match LastCast(history, key)
    case Some(d) => Some(d.decisionType)
    case None => None
  }

  /** A key is in one of the lists exactly when that was its last vote. */
  ghost predicate Summarises(req: WithdrawalRequest, history: seq<WithdrawalRequestDecisionInfo>, key: PublicKey) {
    && (key in Keys(req.confirmations) <==> LastVote(history, key) == Some(Confirm))
    && (key in Keys(req.rejections) <==> LastVote(history, key) == Some(Reject))
  }

  lemma VoteKeepsSummary(req: WithdrawalRequest, d: WithdrawalRequestDecisionInfo,
                         history: seq<WithdrawalRequestDecisionInfo>, key: PublicKey)
    requires VotesOk(req) && Summarises(req, history, key) && Vote(req, d).Ok?
    ensures Summarises(Vote(req, d).value.0, history + [d], key)
  {}

  /** Every stored decision is, with its signature, nonce and endpoint, the last vote its operator cast. */
  ghost predicate SignedBy(ds: seq<WithdrawalRequestDecision>, history: seq<WithdrawalRequestDecisionInfo>,
                           t: DecisionType) {
    forall d :: d in ds ==>
      var v := LastCast(history, d.publicKey);
      && v.Some? && v.value.decisionType == t
      && d.signature == v.value.signature && d.nonce == v.value.nonce && d.url == v.value.url
  }

  /** One more vote by someone else leaves a signed list signed. */
  lemma StillSigned(ds: seq<WithdrawalRequestDecision>, history: seq<WithdrawalRequestDecisionInfo>, t: DecisionType,
                    d: WithdrawalRequestDecisionInfo)
    requires SignedBy(ds, history, t) && d.publicKey !in Keys(ds)
    ensures SignedBy(ds, history + [d], t)
  {
    forall e | e in ds ensures LastCast(history + [d], e.publicKey) == LastCast(history, e.publicKey) {
      assert (history + [d])[..|history|] == history;
    }
  }

  lemma NowSigned(ds: seq<WithdrawalRequestDecision>, history: seq<WithdrawalRequestDecisionInfo>,
                  d: WithdrawalRequestDecisionInfo)
    requires SignedBy(ds, history + [d], d.decisionType)
    ensures SignedBy(ds + [d.Stored()], history + [d], d.decisionType)
  {}

  /** What is kept of a signed list after its operator votes the other way. */
  lemma WithoutSigned(ds: seq<WithdrawalRequestDecision>, history: seq<WithdrawalRequestDecisionInfo>, t: DecisionType,
                      d: WithdrawalRequestDecisionInfo)
    requires SignedBy(ds, history, t)
    ensures SignedBy(if d.publicKey in Keys(ds) then Without(ds, d.publicKey) else ds, history + [d], t)
  {
    var kept := if d.publicKey in Keys(ds) then Without(ds, d.publicKey) else ds;
    StillSigned(kept, history, t, d);
  }

  /** An accepted vote is stored as it was cast, and everyone else's stays as it was. */
  lemma VoteKeepsSigned(req: WithdrawalRequest, d: WithdrawalRequestDecisionInfo,
                        history: seq<WithdrawalRequestDecisionInfo>)
    requires SignedBy(req.confirmations, history, Confirm) && SignedBy(req.rejections, history, Reject)
    requires Vote(req, d).Ok?
    ensures var r := Vote(req, d).value.0;
      SignedBy(r.confirmations, history + [d], Confirm) && SignedBy(r.rejections, history + [d], Reject)
  {
    hide SignedBy;
    if d.decisionType.Confirm? {
      StillSigned(req.confirmations, history, Confirm, d);
      NowSigned(req.confirmations, history, d);
      WithoutSigned(req.rejections, history, Reject, d);
    } else {
      StillSigned(req.rejections, history, Reject, d);
      NowSigned(req.rejections, history, d);
      WithoutSigned(req.confirmations, history, Confirm, d);
    }
  }

  /**
   A vote is accepted exactly on an undecided request, by an operator whose vote is not already
   that one; otherwise the error says how the request was decided, or which vote is repeated.
   */
  lemma VoteAcceptedIff(req: WithdrawalRequest, d: WithdrawalRequestDecisionInfo)
    ensures Vote(req, d).Ok? <==>
      && req.status.InProgress?
      && forall e :: e in (if d.decisionType.Confirm? then req.confirmations else req.rejections) ==>
           e.publicKey != d.publicKey
    ensures Vote(req, d).Err? ==>
      Vote(req, d) == Err(
        if req.status.Confirmed? || req.status.Completed? then WithdrawalRequestAlreadyConfirmed(req.id)
        else if !req.status.InProgress? then WithdrawalRequestAlreadyRejected(req.id)
        else if d.decisionType.Confirm? then WithdrawalRequestConfirmationDuplicate(d.requestId, d.publicKey)
        else WithdrawalRequestRejectionDuplicate(d.requestId, d.publicKey))
  {}

  // ---------- When does reaching the quorum confirm? ----------

  /**
   An accepted confirmation that brings the confirmations two or more ahead fails to
   confirm the request exactly when the tally was already two or more, or it was one
   and the voter is switching from Reject: the test is for equality, and the switch
   jumps over it.
   */
  lemma QuorumMissedIff(req: WithdrawalRequest, d: WithdrawalRequestDecisionInfo)
    requires VotesOk(req) && d.decisionType.Confirm? && Vote(req, d).Ok?
    ensures var r := Vote(req, d).value.0;
      |r.confirmations| - |r.rejections| >= REQUIRED_NUMBER_OF_CONFIRMATIONS && r.status != Confirmed
      <==> req.status.tally >= 2 || (req.status.tally == 1 && d.publicKey in Keys(req.rejections))
  {
    VoteMovesKey(req, d);
    WithoutKey(req.rejections, d.publicKey);
  }

  /** The mirror image: a rejection that brings the rejections two or more ahead and does not reject the request. */
  lemma RejectionMissedIff(req: WithdrawalRequest, d: WithdrawalRequestDecisionInfo)
    requires VotesOk(req) && d.decisionType.Reject? && Vote(req, d).Ok?
    ensures var r := Vote(req, d).value.0;
      |r.rejections| - |r.confirmations| >= REQUIRED_NUMBER_OF_CONFIRMATIONS && r.status != OpRejected
      <==> req.status.tally <= -2 || (req.status.tally == -1 && d.publicKey in Keys(req.confirmations))
  {
    VoteMovesKey(req, d);
    WithoutKey(req.confirmations, d.publicKey);
  }

  /** The votes so far leave tally `n` and these two key sets. */
  ghost predicate Standing(req: WithdrawalRequest, ds: seq<WithdrawalRequestDecisionInfo>, n: int,
                           confirmed: set<PublicKey>, rejected: set<PublicKey>) {
    var s := VoteAll(req, ds);
    VotesOk(s) && s.status == InProgress(n) && Keys(s.confirmations) == confirmed && Keys(s.rejections) == rejected
  }

  /** One more vote, by someone who has not voted yet. */
  lemma NewVote(req: WithdrawalRequest, ds: seq<WithdrawalRequestDecisionInfo>, d: WithdrawalRequestDecisionInfo,
                n: int, confirmed: set<PublicKey>, rejected: set<PublicKey>)
    requires Standing(req, ds, n, confirmed, rejected) && d.publicKey !in confirmed + rejected
    requires if d.decisionType.Confirm? then n != 1 else n != -1
    ensures if d.decisionType.Confirm? then Standing(req, ds + [d], n + 1, confirmed + {d.publicKey}, rejected)
            else Standing(req, ds + [d], n - 1, confirmed, rejected + {d.publicKey})
  {
    assert (ds + [d])[..|ds|] == ds;
    VoteMovesKey(VoteAll(req, ds), d);
  }

  /** One more vote, by a rejecter who changes to Confirm. */
  lemma SwitchVote(req: WithdrawalRequest, ds: seq<WithdrawalRequestDecisionInfo>, d: WithdrawalRequestDecisionInfo,
                   n: int, confirmed: set<PublicKey>, rejected: set<PublicKey>)
    requires Standing(req, ds, n, confirmed, rejected) && d.publicKey in rejected && d.decisionType.Confirm? && n != 0
    ensures Standing(req, ds + [d], n + 2, confirmed + {d.publicKey}, rejected - {d.publicKey})
  {
    assert (ds + [d])[..|ds|] == ds;
    VoteMovesKey(VoteAll(req, ds), d);
  }

  /** From one confirmation and one rejection, a third operator confirms and the rejecter changes over. */
  lemma QuorumJumpedOver(req: WithdrawalRequest, ds: seq<WithdrawalRequestDecisionInfo>,
                         c3: WithdrawalRequestDecisionInfo, c2: WithdrawalRequestDecisionInfo)
    requires Standing(req, ds, 0, {1}, {2})
    requires c3.publicKey == 3 && c3.decisionType.Confirm? && c2.publicKey == 2 && c2.decisionType.Confirm?
    ensures Standing(req, ds + [c3] + [c2], 3, {1, 2, 3}, {})
  {
    NewVote(req, ds, c3, 0, {1}, {2});
    assert {1} + {c3.publicKey} == {1, 3};
    SwitchVote(req, ds + [c3], c2, 1, {1, 3}, {2});
    assert {1, 3} + {c2.publicKey} == {1, 2, 3};
    assert {2} - {c2.publicKey} == {};
  }

  lemma OneEach(req: WithdrawalRequest, c1: WithdrawalRequestDecisionInfo, r2: WithdrawalRequestDecisionInfo)
    requires req.status == InProgress(0) && req.confirmations == [] && req.rejections == []
    requires c1.publicKey == 1 && c1.decisionType.Confirm? && r2.publicKey == 2 && r2.decisionType.Reject?
    ensures Standing(req, [] + [c1] + [r2], 0, {1}, {2})
  {
    assert Standing(req, [], 0, {}, {});
    NewVote(req, [], c1, 0, {}, {});
    assert {} + {c1.publicKey} == {1};
    NewVote(req, [] + [c1], r2, 1, {1}, {});
    assert {} + {r2.publicKey} == {2};
  }

  /** Three operators end up all confirming, none rejecting, and the request is still in progress at tally 3. */
  lemma ThreeOperatorsCanMissQuorum(req: WithdrawalRequest, c1: WithdrawalRequestDecisionInfo,
                                    r2: WithdrawalRequestDecisionInfo, c3: WithdrawalRequestDecisionInfo,
                                    c2: WithdrawalRequestDecisionInfo)
    requires req.status == InProgress(0) && req.confirmations == [] && req.rejections == []
    requires c1.publicKey == 1 && r2.publicKey == c2.publicKey == 2 && c3.publicKey == 3
    requires c1.decisionType.Confirm? && c2.decisionType.Confirm? && c3.decisionType.Confirm? && r2.decisionType.Reject?
    ensures Standing(req, [] + [c1] + [r2] + [c3] + [c2], 3, {1, 2, 3}, {})
  {
    OneEach(req, c1, r2);
    QuorumJumpedOver(req, [] + [c1] + [r2], c3, c2);
  }

  // ---------- Two operators ----------

  lemma TwoKeysBound(s: set<PublicKey>, a: PublicKey, b: PublicKey)
    requires s <= {a, b}
    ensures |s| <= 2
    ensures |s| == 2 <==> a != b && a in s && b in s
    ensures |s| == 0 <==> a !in s && b !in s
  {
    var t := s - {a};
    assert t - {b} == {};
    assert |t| == if b in t then 1 else 0 by {
      if b in t { assert t == {b}; } else { assert t == {}; }
    }
    assert |s| == |t| + if a in s then 1 else 0 by {
      if a in s { assert s == t + {a}; } else { assert s == t; }
    }
  }

  /** What two operators' votes can have led to: undecided below two, or both on one side. */
  ghost predicate DecidedAtTwo(r: WithdrawalRequest) {
    match r.status
    case InProgress(n) => -2 < n < 2
    case Confirmed => |r.confirmations| == 2
    case OpRejected => |r.rejections| == 2
    case _ => false
  }

  /** Two operators leave two signatures at most, on either side. */
  lemma SignedByTwo(r: WithdrawalRequest, a: PublicKey, b: PublicKey)
    requires VotesOk(r) && Keys(r.confirmations) <= {a, b} && Keys(r.rejections) <= {a, b}
    ensures |r.confirmations| + |r.rejections| <= 2
  {
    var all := Keys(r.confirmations) + Keys(r.rejections);
    KeysCount(r.confirmations);
    KeysCount(r.rejections);
    TwoKeysBound(all, a, b);
    assert |all| == |Keys(r.confirmations)| + |Keys(r.rejections)|;
  }

  /** A vote by one of two operators keeps it so, also when it is a change of vote. */
  lemma TwoOperatorsStep(before: WithdrawalRequest, d: WithdrawalRequestDecisionInfo, a: PublicKey, b: PublicKey)
    requires VotesOk(before) && Keys(before.confirmations) <= {a, b} && Keys(before.rejections) <= {a, b}
      && DecidedAtTwo(before)
    requires d.publicKey in {a, b} && Vote(before, d).Ok?
    ensures var r := Vote(before, d).value.0;
      VotesOk(r) && Keys(r.confirmations) <= {a, b} && Keys(r.rejections) <= {a, b} && DecidedAtTwo(r)
  {
    VoteMovesKey(before, d);
    SignedByTwo(Vote(before, d).value.0, a, b);
  }
}
