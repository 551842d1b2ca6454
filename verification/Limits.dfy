/** Spending limits, and the operators' vote on changing one. */
module Limits {
  import opened Domain

  datatype LimitSpan = Day | Week | Month

  datatype Limit = Limit(amount: u64, span: LimitSpan)

  datatype LimitInfo = LimitInfo(limit: Limit, spent: u64)

  const DEFAULT_LIMIT := LimitInfo(Limit(0, Day), 0)

  datatype LimitChangeStatus = InProgress(confirmed: int, rejected: int) | Completed | Rejected

  datatype LimitChangeUpd = LimitChangeUpd(user: UserId, currency: Currency, limit: Limit)

  datatype LimitCancelData = LimitCancelData(id: Uuid, user: UserId, currency: Currency)

  datatype LimitChangeDecision = LimitChangeDecision(
    id: Uuid, user: UserId, currency: Currency, createdAt: string, requestedLimit: Limit, url: string,
    signature: Signature, nonce: u64, publicKey: PublicKey, decisionType: DecisionType)
  {
    function Signed(): SignatureData {
      SignatureData(signature, nonce, publicKey)
    }
  }

  datatype LimitChangeData = LimitChangeData(
    id: Uuid,
    user: UserId,
    createdAt: string,
    status: LimitChangeStatus,
    currency: Currency,
    limit: Limit,
    confirmations: seq<SignatureData>,
    rejections: seq<SignatureData>
  )
  {
    predicate HasConfirmed(key: PublicKey) {
      Signers(confirmations, key)
    }

    predicate HasRejected(key: PublicKey) {
      Signers(rejections, key)
    }
  }

  predicate Signers(ds: seq<SignatureData>, key: PublicKey) {
    exists i :: 0 <= i < |ds| && ds[i].publicKey == key
  }

  ghost predicate DistinctSigners(ds: seq<SignatureData>) {
    forall i, j :: 0 <= i < j < |ds| ==> ds[i].publicKey != ds[j].publicKey
  }

  /** What one decision does to a limit request. */
  datatype LimitOutcome = Pending(data: LimitChangeData) | Granted | Refused

  function DecideLimit(req: LimitChangeData, d: LimitChangeDecision): Result<LimitOutcome, StateUpdateErr> {
    match req.status
    case Completed => Err(LimitAlreadyConfirmed)
    case Rejected => Err(LimitAlreadyRejected)
    case InProgress(c, r) =>
      match d.decisionType
      case Confirm =>
        if req.HasConfirmed(d.publicKey) then Err(LimitAlreadyConfirmed)
        else if c + 1 - r >= 2 then Ok(Granted)
        else Ok(Pending(req.(confirmations := req.confirmations + [d.Signed()], status := InProgress(c + 1, r))))
      case Reject =>
        if req.HasRejected(d.publicKey) then Err(LimitAlreadyConfirmed)
        else if r + 1 - c >= 2 then Ok(Refused)
        else Ok(Pending(req.(rejections := req.rejections + [d.Signed()], status := InProgress(c, r + 1))))
  }

  /** A stored limit request is undecided, its counters are its list lengths, and its lists have distinct signers. */
  ghost predicate LimitOk(req: LimitChangeData) {
    && req.status == InProgress(|req.confirmations|, |req.rejections|)
    && DistinctSigners(req.confirmations)
    && DistinctSigners(req.rejections)
    && -1 <= |req.confirmations| - |req.rejections| <= 1
  }

  /**
   A decision keeps the request well formed; it grants the limit only when the new
   signer joins at least one other, the two sides then being exactly two apart.
   */
  lemma DecideLimitKeepsOk(req: LimitChangeData, d: LimitChangeDecision)
    requires LimitOk(req)
    ensures var r := DecideLimit(req, d);
      match r
      case Ok(Pending(data)) =>
        && LimitOk(data)
        && data == req.(status := data.status, confirmations := data.confirmations, rejections := data.rejections)
      case Ok(Granted) =>
        && DistinctSigners(req.confirmations + [d.Signed()])
        && |req.confirmations + [d.Signed()]| == |req.rejections| + 2
      case Ok(Refused) =>
        && DistinctSigners(req.rejections + [d.Signed()])
        && |req.rejections + [d.Signed()]| == |req.confirmations| + 2
      case Err(_) =>
        Signers(if d.decisionType.Confirm? then req.confirmations else req.rejections, d.publicKey)
  {}

  /** The two sides of a limit request before a decision: the decision's own, and the other. */
  function Sides(data: LimitChangeData, t: DecisionType): (seq<SignatureData>, seq<SignatureData>) {
    if t.Confirm? then (data.confirmations, data.rejections) else (data.rejections, data.confirmations)
  }

  /** What a decision makes of its own side: the signature joins it, or the request is settled exactly two ahead. */
  lemma DecisionCounts(req: LimitChangeData, d: LimitChangeDecision)
    requires LimitOk(req)
    ensures var (own, other) := Sides(req, d.decisionType);
      && (DecideLimit(req, d).Ok? <==> forall x :: x in own ==> x.publicKey != d.publicKey)
      && match DecideLimit(req, d)
         case Ok(Pending(data)) =>
           && Sides(data, d.decisionType) == (own + [SignatureData(d.signature, d.nonce, d.publicKey)], other)
           && |own| + 1 != |other| + 2
         case Ok(Granted) => d.decisionType.Confirm? && |own| + 1 == |other| + 2
         case Ok(Refused) => d.decisionType.Reject? && |own| + 1 == |other| + 2
         case Err(e) => e == LimitAlreadyConfirmed
  {}

  // ---------- Histories ----------

  /** Decisions applied in turn until one settles the request; refused decisions change nothing. */
  function DecideAll(req: LimitChangeData, ds: seq<LimitChangeDecision>): LimitOutcome
    decreases |ds|
  {
    if ds == [] then Pending(req)
    else
      match DecideLimit(req, ds[0])
      case Err(_) => DecideAll(req, ds[1..])
      case Ok(Pending(data)) => DecideAll(data, ds[1..])
      case Ok(settled) => settled
  }

  /** The keys that chose `t` among the decisions. */
  function Voters(ds: seq<LimitChangeDecision>, t: DecisionType): set<PublicKey> {
    set d | d in ds && d.decisionType == t :: d.publicKey
  }

  ghost predicate Covers(keys: set<PublicKey>, signed: seq<SignatureData>) {
    forall s :: s in signed ==> s.publicKey in keys
  }

  lemma {:induction false} DistinctWithin(signed: seq<SignatureData>, keys: set<PublicKey>)
    requires DistinctSigners(signed) && Covers(keys, signed)
    ensures |signed| <= |keys|
  {
    if signed != [] {
      var init, last := signed[..|signed| - 1], signed[|signed| - 1];
      DistinctWithin(init, keys - {last.publicKey});
    }
  }

  /** No history of decisions on a new request can grant the limit unless two different operators confirmed it. */
  lemma GrantNeedsTwoOperators(req: LimitChangeData, ds: seq<LimitChangeDecision>)
    requires req.status == InProgress(0, 0) && req.confirmations == [] && req.rejections == []
    requires DecideAll(req, ds) == Granted
    ensures |Voters(ds, Confirm)| >= 2
  {
    GrantWithin(req, ds, Voters(ds, Confirm));
  }

  lemma {:induction false} GrantWithin(req: LimitChangeData, ds: seq<LimitChangeDecision>, keys: set<PublicKey>)
    requires LimitOk(req) && Covers(keys, req.confirmations)
    requires forall d :: d in ds && d.decisionType == Confirm ==> d.publicKey in keys
    requires DecideAll(req, ds) == Granted
    ensures |keys| >= 2
    decreases |ds|
  {
    var d := ds[0];
    DecideLimitKeepsOk(req, d);
    match DecideLimit(req, d) {
      case Err(_) => GrantWithin(req, ds[1..], keys);
      case Ok(Pending(data)) => GrantWithin(data, ds[1..], keys);
      case Ok(_) => DistinctWithin(req.confirmations + [d.Signed()], keys);
    }
  }
}
