/**
 The path of a Bitcoin event from the node to the ledger: scanned into a buffer, polled
 out of it, sent down a channel, taken up by the update worker.
 */
module Pipeline {
  import opened Domain
  import opened Updates
  import T = Transactions

  datatype BtcEvent = Update(update: T.TxUpdate) | Cancel(cancel: T.TxCancel)

  // ---------- The scan ----------

  datatype Category = Receive | Send | Other

  /** One entry of the node's `listsinceblock` answer; amounts are in satoshi. */
  datatype ListedTx = ListedTx(
    category: Category, address: Option<string>, txid: Txid, vout: nat, amount: i64, confirmations: int,
    timestamp: Time, conflicts: seq<Txid>, fee: Option<i64>)

  function Direction(tx: ListedTx): Option<T.TxDirection> {
    match tx.category
    case Receive => Some(T.Deposit)
    case Send => Some(T.Withdraw)
    case Other => None
  }

  function Magnitude(x: i64): u64 {
    if x < 0 then -(x as int) else x
  }

  function ToUpdateEvent(tx: ListedTx): Option<BtcEvent> {
    var direction := Direction(tx);
    if direction.None? || tx.address.None? || tx.confirmations < 0 then None
    else Some(Update(T.TxUpdate(direction.value, tx.txid, tx.vout, tx.address.value, Magnitude(tx.amount),
                                tx.confirmations, tx.timestamp, tx.conflicts,
                                if tx.fee.Some? then Some(Magnitude(tx.fee.value)) else None)))
  }

  function ToRemoveEvent(tx: ListedTx): Option<BtcEvent> {
    var direction := Direction(tx);
    if direction.None? || tx.address.None? || tx.amount < 0 then None
    else Some(Cancel(T.TxCancel(direction.value, tx.txid, tx.vout, tx.address.value, Magnitude(tx.amount),
                                tx.timestamp, tx.conflicts)))
  }

  datatype ListSince = ListSince(removed: seq<ListedTx>, transactions: seq<ListedTx>, lastBlock: string)

  function Collected(txs: seq<ListedTx>, f: ListedTx -> Option<BtcEvent>): seq<BtcEvent> {
    if txs == [] then []
    else Collected(txs[..|txs| - 1], f) + match f(txs[|txs| - 1]) { case Some(e) => [e] case None => [] }
  }

  /** The events of one answer: cancels of removed entries first, then updates. */
  function Scanned(answer: ListSince): seq<BtcEvent> {
    Collected(answer.removed, ToRemoveEvent) + Collected(answer.transactions, ToUpdateEvent)
  }

  method ScanFrom(answer: ListSince) returns (events: seq<BtcEvent>, next: string)
    ensures events == Scanned(answer) && next == answer.lastBlock
  {
    events := [];
    for i := 0 to |answer.removed|
      invariant events == Collected(answer.removed[..i], ToRemoveEvent)
    {
      assert answer.removed[..i + 1][..i] == answer.removed[..i];
      var e := ToRemoveEvent(answer.removed[i]);
      if e.Some? {
        events := events + [e.value];
      }
    }
    assert answer.removed[..|answer.removed|] == answer.removed;
    for i := 0 to |answer.transactions|
      invariant events == Collected(answer.removed, ToRemoveEvent) + Collected(answer.transactions[..i], ToUpdateEvent)
    {
      assert answer.transactions[..i + 1][..i] == answer.transactions[..i];
      var e := ToUpdateEvent(answer.transactions[i]);
      if e.Some? {
        events := events + [e.value];
      }
    }
    assert answer.transactions[..|answer.transactions|] == answer.transactions;
    next := answer.lastBlock;
  }

  // ---------- What is scanned, entry by entry ----------

  /** The indices of the wanted elements, in order. */
  ghost function Positions<A>(s: seq<A>, wanted: A -> bool): (r: seq<nat>)
    ensures forall k :: 0 <= k < |r| ==> 0 <= r[k] < |s| && wanted(s[r[k]])
    ensures forall i :: 0 <= i < |s| && wanted(s[i]) ==> i in r
    ensures forall j, k :: 0 <= j < k < |r| ==> r[j] < r[k]
  {
    if s == [] then []
    else
      var before, n := Positions(s[..|s| - 1], wanted), |s| - 1;
      if wanted(s[n]) then before + [n] else before
  }

  /** `to` is what the wanted elements of `from` became, one for one and in order. */
  ghost predicate OneForOne<A, B>(from: seq<A>, wanted: A -> bool, to: seq<B>, became: (A, B) -> bool) {
    var at := Positions(from, wanted);
    |to| == |at| && forall k :: 0 <= k < |to| ==> became(from[at[k]], to[k])
  }

  lemma NothingOneForOne<A, B>(wanted: A -> bool, became: (A, B) -> bool)
    ensures OneForOne([], wanted, [], became)
  {}

  /** One more element, and what it became if it is wanted. */
  lemma OneForOneNext<A, B>(from: seq<A>, wanted: A -> bool, to: seq<B>, became: (A, B) -> bool, more: seq<B>)
    requires from != [] && OneForOne(from[..|from| - 1], wanted, to, became)
    requires if wanted(from[|from| - 1]) then |more| == 1 && became(from[|from| - 1], more[0]) else more == []
    ensures OneForOne(from, wanted, to + more, became)
  {
    assert to + [] == to;
  }

  /** A removed entry is reported as a cancel, an entry of the list as an update. */
  predicate CancelDue(tx: ListedTx) {
    !tx.category.Other? && tx.address.Some? && tx.amount >= 0
  }

  predicate UpdateDue(tx: ListedTx) {
    !tx.category.Other? && tx.address.Some? && tx.confirmations >= 0
  }

  predicate CancelOf(tx: ListedTx, e: BtcEvent) {
    && e.Cancel? && tx.address == Some(e.cancel.address)
    && e.cancel.txid == tx.txid && e.cancel.vout == tx.vout && e.cancel.amount == tx.amount
    && (e.cancel.direction.Deposit? <==> tx.category.Receive?)
    && e.cancel.timestamp == tx.timestamp && e.cancel.conflicts == tx.conflicts
  }

  predicate UpdateOf(tx: ListedTx, e: BtcEvent) {
    && e.Update? && tx.address == Some(e.update.address)
    && e.update.txid == tx.txid && e.update.vout == tx.vout && e.update.confirmations == tx.confirmations
    && e.update.amount == (if tx.amount < 0 then -(tx.amount as int) else tx.amount)
    && (e.update.direction.Deposit? <==> tx.category.Receive?)
    && e.update.timestamp == tx.timestamp && e.update.conflicts == tx.conflicts
    && (e.update.fee.Some? <==> tx.fee.Some?)
    && (tx.fee.Some? ==> e.update.fee.value == if tx.fee.value < 0 then -(tx.fee.value as int) else tx.fee.value)
  }

  lemma {:induction false} CollectedOneForOne(txs: seq<ListedTx>, f: ListedTx -> Option<BtcEvent>,
                                              due: ListedTx -> bool, became: (ListedTx, BtcEvent) -> bool)
    requires forall tx :: f(tx).Some? <==> due(tx)
    requires forall tx :: due(tx) ==> became(tx, f(tx).value)
    ensures OneForOne(txs, due, Collected(txs, f), became)
  {
    hide OneForOne;
    if txs == [] {
      NothingOneForOne(due, became);
    } else {
      var init, last := txs[..|txs| - 1], txs[|txs| - 1];
      CollectedOneForOne(init, f, due, became);
      OneForOneNext(txs, due, Collected(init, f), became, if due(last) then [f(last).value] else []);
    }
  }

  /** The events of an answer: a cancel of each removed entry that is due one, then an update of each entry that is. */
  lemma ScannedOneForOne(answer: ListSince)
    ensures var n := |Positions(answer.removed, CancelDue)|;
      && n <= |Scanned(answer)|
      && OneForOne(answer.removed, CancelDue, Scanned(answer)[..n], CancelOf)
      && OneForOne(answer.transactions, UpdateDue, Scanned(answer)[n..], UpdateOf)
  {
    var cancels, updates := Collected(answer.removed, ToRemoveEvent), Collected(answer.transactions, ToUpdateEvent);
    CollectedOneForOne(answer.removed, ToRemoveEvent, CancelDue, CancelOf);
    CollectedOneForOne(answer.transactions, ToUpdateEvent, UpdateDue, UpdateOf);
    assert Scanned(answer)[..|cancels|] == cancels && Scanned(answer)[|cancels|..] == updates;
  }

  /** What the Bitcoin module keeps between scans and polls. */
  class ScanState {
    var lastBlock: string
    var lastHeight: nat
    var events: seq<BtcEvent>

    constructor (genesis: string)
      ensures lastBlock == genesis && lastHeight == 0 && events == []
    {
      lastBlock, lastHeight, events := genesis, 0, [];
    }

    /** One turn of `node_worker`; `answer` is absent when the node cannot be queried, `height` when it will not say. */
    method Scan(answer: Option<ListSince>, height: Option<nat>)
      modifies this
      ensures events == old(events) + if answer.Some? then Scanned(answer.value) else []
      ensures lastBlock == if answer.Some? then answer.value.lastBlock else old(lastBlock)
      ensures lastHeight == if answer.Some? && (Scanned(answer.value) != [] || answer.value.lastBlock != old(lastBlock))
                            then height.GetOr(old(lastHeight)) else old(lastHeight)
    {
      if answer.Some? {
        var found, next := ScanFrom(answer.value);
        if found != [] || lastBlock != next {
          lastHeight := height.GetOr(lastHeight);
          lastBlock := next;
          if found != [] {
            events := events + found;
          }
        }
      }
    }

    /** `poll_events`: hand over everything buffered and start again empty. */
    method Poll() returns (hash: string, height: nat, polled: seq<BtcEvent>)
      modifies this`events
      ensures hash == lastBlock && height == lastHeight && polled == old(events) && events == []
    {
      hash, height, polled := lastBlock, lastHeight, events;
      events := [];
    }
  }

  // ---------- The channel ----------

  /** The update an event becomes: deposits and all cancels; withdrawal updates are dropped. */
  function ToBody(e: BtcEvent): Option<UpdateBody> {
    match e
    case Update(u) => if u.direction.Deposit? then Some(UpdateBtcTx(u.ToTransaction())) else None
    case Cancel(c) => Some(CancelBtcTx(c))
  }

  function BodyOf(e: BtcEvent): seq<UpdateBody> {
    match ToBody(e)
    case Some(b) => [b]
    case None => []
  }

  /** The updates a sequence of events becomes. */
  function Bodies(events: seq<BtcEvent>): seq<UpdateBody> {
    if events == [] then []
    else Bodies(events[..|events| - 1]) + BodyOf(events[|events| - 1])
  }

  // ---------- What is sent, event by event ----------

  /** The events the ledger must hear of: every cancel, and the updates of deposits. */
  predicate Due(e: BtcEvent) {
    e.Cancel? || e.update.direction.Deposit?
  }

  /** The update reports the event: the same cancel, or the deposit as it was reported. */
  predicate Reports(e: BtcEvent, b: UpdateBody) {
    match e
    case Cancel(c) => b == CancelBtcTx(c)
    case Update(u) =>
      && b.UpdateBtcTx?
      && b.tx.txid == u.txid && b.tx.vout == u.vout && b.tx.address == u.address
      && b.tx.confirmations == u.confirmations && (u.amount < TWO_TO_THE_63 ==> b.tx.amount == u.amount)
      && b.tx.timestamp == u.timestamp && b.tx.conflicts == u.conflicts && b.tx.fee == u.fee
  }

  predicate IsBtcTx(b: UpdateBody) {
    b.UpdateBtcTx? || b.CancelBtcTx?
  }

  /** The deposit updates and cancels among the bodies. */
  function BtcOnly(bodies: seq<UpdateBody>): seq<UpdateBody> {
    if bodies == [] then []
    else BtcOnly(bodies[..|bodies| - 1]) + if IsBtcTx(bodies[|bodies| - 1]) then [bodies[|bodies| - 1]] else []
  }

  /** Among the updates, those on Bitcoin transactions report the events so far, in order, each once. */
  ghost predicate DeliversSoFar(events: seq<BtcEvent>, bodies: seq<UpdateBody>) {
    var from, to := Positions(events, Due), Positions(bodies, IsBtcTx);
    |to| <= |from| && forall k :: 0 <= k < |to| ==> Reports(events[from[k]], bodies[to[k]])
  }

  /** And they report all of them. */
  ghost predicate Delivers(events: seq<BtcEvent>, bodies: seq<UpdateBody>) {
    DeliversSoFar(events, bodies) && |Positions(events, Due)| == |Positions(bodies, IsBtcTx)|
  }

  lemma BodyReports(e: BtcEvent)
    ensures if Due(e) then |BodyOf(e)| == 1 && IsBtcTx(BodyOf(e)[0]) && Reports(e, BodyOf(e)[0]) else BodyOf(e) == []
  {}

  lemma {:induction false} BodiesReport(events: seq<BtcEvent>)
    ensures OneForOne(events, Due, Bodies(events), Reports)
    ensures forall b :: b in Bodies(events) ==> IsBtcTx(b)
  {
    hide OneForOne;
    if events == [] {
      NothingOneForOne(Due, Reports);
    } else {
      var init, last := events[..|events| - 1], events[|events| - 1];
      BodiesReport(init);
      BodyReports(last);
      OneForOneNext(events, Due, Bodies(init), Reports, BodyOf(last));
    }
  }

  /** What a filter keeps, by position. */
  lemma {:induction false} BtcOnlyAt(bodies: seq<UpdateBody>)
    ensures OneForOne(bodies, IsBtcTx, BtcOnly(bodies), (b: UpdateBody, c: UpdateBody) => b == c)
  {
    hide OneForOne;
    var same := (b: UpdateBody, c: UpdateBody) => b == c;
    if bodies == [] {
      NothingOneForOne(IsBtcTx, same);
    } else {
      var init, last := bodies[..|bodies| - 1], bodies[|bodies| - 1];
      BtcOnlyAt(init);
      OneForOneNext(bodies, IsBtcTx, BtcOnly(init), same, if IsBtcTx(last) then [last] else []);
    }
  }

  /** If what the filter keeps begins what the events become, the updates deliver the events so far. */
  lemma PrefixDelivers(events: seq<BtcEvent>, bodies: seq<UpdateBody>)
    requires BtcOnly(bodies) <= Bodies(events)
    ensures DeliversSoFar(events, bodies)
    ensures BtcOnly(bodies) == Bodies(events) ==> Delivers(events, bodies)
  {
    BodiesReport(events);
    BtcOnlyAt(bodies);
    var from, to := Positions(events, Due), Positions(bodies, IsBtcTx);
    forall k | 0 <= k < |to| ensures Reports(events[from[k]], bodies[to[k]]) {
      assert bodies[to[k]] == BtcOnly(bodies)[k] == Bodies(events)[k];
    }
  }

  lemma {:induction false} BtcOnlyKeepsAll(bodies: seq<UpdateBody>)
    requires forall b :: b in bodies ==> IsBtcTx(b)
    ensures BtcOnly(bodies) == bodies
  {
    if bodies != [] {
      BtcOnlyKeepsAll(bodies[..|bodies| - 1]);
    }
  }

  /** What a batch is sent as delivers it, also behind a best block. */
  lemma BatchDelivers(events: seq<BtcEvent>, first: seq<UpdateBody>)
    requires BtcOnly(first) == []
    ensures Delivers(events, first + Bodies(events))
  {
    BodiesReport(events);
    BtcOnlyKeepsAll(Bodies(events));
    BtcOnlyConcat(first, Bodies(events));
    PrefixDelivers(events, first + Bodies(events));
  }

  lemma {:induction false} BtcOnlyConcat(a: seq<UpdateBody>, b: seq<UpdateBody>)
    ensures BtcOnly(a + b) == BtcOnly(a) + BtcOnly(b)
  {
    if b == [] {
      assert a + b == a;
    } else {
      BtcOnlyConcat(a, b[..|b| - 1]);
      assert (a + b)[..|a + b| - 1] == a + b[..|b| - 1];
    }
  }

  lemma Regroup<T>(a: seq<T>, b: seq<T>, c: seq<T>)
    ensures a + (b + c) == a + b + c
  {}

  lemma BodiesStart(events: seq<BtcEvent>)
    ensures Bodies(events[..0]) == []
  {}

  lemma BodiesNext(events: seq<BtcEvent>, i: nat)
    requires i < |events|
    ensures Bodies(events[..i + 1]) == Bodies(events[..i]) + BodyOf(events[i])
  {
    assert events[..i + 1][..i] == events[..i];
  }

  lemma BestBlockOnly(knownBlock: string, hash: string, height: nat)
    ensures BtcOnly(if knownBlock != hash then [BestBtcBlock(BtcState(height, hash))] else []) == []
  {
    assert [BestBtcBlock(BtcState(height, hash))][..0] == [];
  }

  /** `process_btc_events`: the new best block if there is one, then the events in order. */
  method ProcessBtcEvents(knownBlock: string, hash: string, height: nat, events: seq<BtcEvent>)
    returns (sent: seq<UpdateBody>)
    ensures sent == (if knownBlock != hash then [BestBtcBlock(BtcState(height, hash))] else []) + Bodies(events)
    ensures Delivers(events, sent)
  {
    hide Bodies, Delivers;
    sent := [];
    if knownBlock != hash {
      sent := [BestBtcBlock(BtcState(height, hash))];
    }
    ghost var first := sent;
    BodiesStart(events);
    for i := 0 to |events|
      invariant sent == first + Bodies(events[..i])
    {
      ghost var before := sent;
      match events[i] {
        case Update(u) =>
          if u.direction.Deposit? {
            sent := sent + [UpdateBtcTx(u.ToTransaction())];
          }
        case Cancel(c) =>
          sent := sent + [CancelBtcTx(c)];
      }
      assert sent == before + BodyOf(events[i]);
      BodiesNext(events, i);
      Regroup(first, Bodies(events[..i]), BodyOf(events[i]));
    }
    assert events[..|events|] == events;
    BestBlockOnly(knownBlock, hash, height);
    BatchDelivers(events, first);
  }

  // ---------- Interleavings ----------

  /**
   Everything in flight. `scanned` is the history of what the node ever reported;
   `batch` is what was polled and not yet sent; `queue` is the channel; `applied` is
   what the update worker has received. Others put updates into the same channel.
   */
  datatype Flight = Flight(scanned: seq<BtcEvent>, buffer: seq<BtcEvent>, batch: seq<BtcEvent>,
                           queue: seq<UpdateBody>, applied: seq<UpdateBody>)

  datatype Move =
    | Scan(events: seq<BtcEvent>)
    | Poll
    | SendNext
    | SendOther(body: UpdateBody)
    | Apply

  /** A move is possible: polling only after the last batch was sent, sending and applying only what is there. */
  predicate Enabled(f: Flight, m: Move) {
    match m
    case Scan(_) => true
    case Poll => f.batch == []
    case SendNext => f.batch != []
    case SendOther(b) => !IsBtcTx(b)
    case Apply => f.queue != []
  }

  function Moved(f: Flight, m: Move): Flight
    requires Enabled(f, m)
  {
    match m
    case Scan(events) => f.(scanned := f.scanned + events, buffer := f.buffer + events)
    case Poll => f.(batch := f.buffer, buffer := [])
    case SendNext => f.(batch := f.batch[1..],
      queue := f.queue + BodyOf(f.batch[0]))
    case SendOther(b) => f.(queue := f.queue + [b])
    case Apply => f.(queue := f.queue[1..], applied := f.applied + [f.queue[0]])
  }

  /** A sequence of moves, each possible when it is made. */
  predicate Possible(f: Flight, moves: seq<Move>)
    decreases |moves|
  {
    moves != [] ==> Enabled(f, moves[0]) && Possible(Moved(f, moves[0]), moves[1..])
  }

  function After(f: Flight, moves: seq<Move>): Flight
    requires Possible(f, moves)
    decreases |moves|
  {
    if moves == [] then f else After(Moved(f, moves[0]), moves[1..])
  }

  /** What was applied, is queued, was polled, and is still buffered, in this order, is what was scanned. */
  ghost predicate InOrderExactlyOnce(f: Flight) {
    BtcOnly(f.applied + f.queue) + Bodies(f.batch) + Bodies(f.buffer) == Bodies(f.scanned)
  }

  lemma {:induction false} BodiesConcat(a: seq<BtcEvent>, b: seq<BtcEvent>)
    ensures Bodies(a + b) == Bodies(a) + Bodies(b)
  {
    hide BodyOf;
    if b == [] {
      assert a + b == a;
    } else {
      BodiesConcat(a, b[..|b| - 1]);
      assert (a + b)[..|a + b| - 1] == a + b[..|b| - 1];
    }
  }

  lemma BtcOnlyAppend(bodies: seq<UpdateBody>, b: UpdateBody)
    ensures BtcOnly(bodies + [b]) == BtcOnly(bodies) + if IsBtcTx(b) then [b] else []
  {}

  lemma BodiesFirst(events: seq<BtcEvent>)
    requires events != []
    ensures Bodies(events) == BodyOf(events[0]) + Bodies(events[1..])
  {
    hide BodyOf;
    BodiesConcat([events[0]], events[1..]);
    assert events == [events[0]] + events[1..];
    assert [events[0]][..0] == [];
  }

  lemma QueueGrows(applied: seq<UpdateBody>, queue: seq<UpdateBody>, e: BtcEvent)
    ensures BtcOnly(applied + (queue + BodyOf(e))) == BtcOnly(applied + queue) + BodyOf(e)
  {
    hide BtcOnly;
    Regroup(applied, queue, BodyOf(e));
    match ToBody(e) {
      case Some(b) => BtcOnlyAppend(applied + queue, b);
      case None =>
        assert applied + queue + [] == applied + queue;
        assert BtcOnly(applied + queue) + [] == BtcOnly(applied + queue);
    }
  }

  lemma SendNextKeeps(f: Flight)
    requires InOrderExactlyOnce(f) && f.batch != []
    ensures InOrderExactlyOnce(Moved(f, SendNext))
  {
    hide BtcOnly, Bodies, BodyOf;
    BodiesFirst(f.batch);
    QueueGrows(f.applied, f.queue, f.batch[0]);
    Regroup(BtcOnly(f.applied + f.queue), BodyOf(f.batch[0]), Bodies(f.batch[1..]));
  }

  lemma ScanKeeps(f: Flight, events: seq<BtcEvent>)
    requires InOrderExactlyOnce(f)
    ensures InOrderExactlyOnce(Moved(f, Scan(events)))
  {
    hide BtcOnly, Bodies;
    BodiesConcat(f.buffer, events);
    BodiesConcat(f.scanned, events);
    Regroup(BtcOnly(f.applied + f.queue) + Bodies(f.batch), Bodies(f.buffer), Bodies(events));
  }

  lemma PollKeeps(f: Flight)
    requires InOrderExactlyOnce(f) && f.batch == []
    ensures InOrderExactlyOnce(Moved(f, Poll))
  {
    hide BtcOnly;
    var arrived, waiting := BtcOnly(f.applied + f.queue), Bodies(f.buffer);
    assert arrived + [] + waiting == arrived + waiting == arrived + waiting + [];
  }

  lemma SendOtherKeeps(f: Flight, b: UpdateBody)
    requires InOrderExactlyOnce(f) && !IsBtcTx(b)
    ensures InOrderExactlyOnce(Moved(f, SendOther(b)))
  {
    hide BtcOnly, Bodies;
    Regroup(f.applied, f.queue, [b]);
    BtcOnlyAppend(f.applied + f.queue, b);
    assert BtcOnly(f.applied + f.queue) + [] == BtcOnly(f.applied + f.queue);
  }

  lemma ApplyKeeps(f: Flight)
    requires InOrderExactlyOnce(f) && f.queue != []
    ensures InOrderExactlyOnce(Moved(f, Apply))
  {
    hide BtcOnly, Bodies;
    Regroup(f.applied, [f.queue[0]], f.queue[1..]);
    assert [f.queue[0]] + f.queue[1..] == f.queue;
  }

  lemma MoveKeeps(f: Flight, m: Move)
    requires InOrderExactlyOnce(f) && Enabled(f, m)
    ensures InOrderExactlyOnce(Moved(f, m))
  {
    match m {
      case Scan(events) => ScanKeeps(f, events);
      case Poll => PollKeeps(f);
      case SendNext => SendNextKeeps(f);
      case SendOther(b) => SendOtherKeeps(f, b);
      case Apply => ApplyKeeps(f);
    }
  }

  /** What the invariant says of the updates applied so far, and of all of them when nothing is in flight. */
  lemma OrderDelivers(f: Flight)
    requires InOrderExactlyOnce(f)
    ensures DeliversSoFar(f.scanned, f.applied)
    ensures f.buffer == [] && f.batch == [] && f.queue == [] ==> Delivers(f.scanned, f.applied)
  {
    hide DeliversSoFar, Delivers, BtcOnly;
    BtcOnlyConcat(f.applied, f.queue);
    Regroup(BtcOnly(f.applied), BtcOnly(f.queue), Bodies(f.batch));
    Regroup(BtcOnly(f.applied), BtcOnly(f.queue) + Bodies(f.batch), Bodies(f.buffer));
    assert BtcOnly(f.applied) <= Bodies(f.scanned);
    PrefixDelivers(f.scanned, f.applied);
    if f.buffer == [] && f.batch == [] && f.queue == [] {
      assert BtcOnly(f.queue) == [] by {
        BtcOnlyKeepsAll([]);
      }
    }
  }

  /**
   Whatever the interleaving of scans, polls, sends and receipts, every deposit update and
   every cancel is delivered exactly once and in the order the node reported it.
   */
  lemma {:induction false} DeliveredExactlyOnceInOrder(f: Flight, moves: seq<Move>)
    requires InOrderExactlyOnce(f) && Possible(f, moves)
    ensures InOrderExactlyOnce(After(f, moves))
    ensures DeliversSoFar(After(f, moves).scanned, After(f, moves).applied)
    decreases |moves|
  {
    hide DeliversSoFar, InOrderExactlyOnce;
    if moves == [] {
      OrderDelivers(f);
    } else {
      MoveKeeps(f, moves[0]);
      DeliveredExactlyOnceInOrder(Moved(f, moves[0]), moves[1..]);
    }
  }

  /** From an empty system: once nothing is in flight, what was applied is exactly what was scanned. */
  lemma QuiescentMeansDelivered(moves: seq<Move>)
    requires Possible(Flight([], [], [], [], []), moves)
    ensures var f := After(Flight([], [], [], [], []), moves);
      f.buffer == [] && f.batch == [] && f.queue == [] ==> Delivers(f.scanned, f.applied)
  {
    hide Delivers;
    assert InOrderExactlyOnce(Flight([], [], [], [], []));
    DeliveredExactlyOnceInOrder(Flight([], [], [], [], []), moves);
    OrderDelivers(After(Flight([], [], [], [], []), moves));
  }

  // ---------- The turns of the running modules are these moves ----------

  function Drain(n: nat): (moves: seq<Move>)
    ensures |moves| == n
  {
    if n == 0 then [] else [SendNext] + Drain(n - 1)
  }

  /** Sending a whole batch event by event queues its updates, in order, and nothing else. */
  lemma {:induction false} DrainSendsAll(f: Flight)
    ensures Possible(f, Drain(|f.batch|))
    ensures After(f, Drain(|f.batch|)) == f.(batch := [], queue := f.queue + Bodies(f.batch))
    ensures Delivers(f.batch, Bodies(f.batch))
    decreases |f.batch|
  {
    hide BodyOf, Delivers;
    BatchDelivers(f.batch, []);
    assert [] + Bodies(f.batch) == Bodies(f.batch);
    if f.batch == [] {
      assert f.queue + Bodies(f.batch) == f.queue;
    } else {
      var moves := Drain(|f.batch|);
      assert moves[0] == SendNext && moves[1..] == Drain(|f.batch| - 1);
      DrainSendsAll(Moved(f, SendNext));
      BodiesFirst(f.batch);
      Regroup(f.queue, BodyOf(f.batch[0]), Bodies(f.batch[1..]));
    }
  }

  /** What one turn of the hot wallet's loop amounts to, when it polls this best block and this many events. */
  function HotMoves(knownBlock: string, hash: string, height: nat, count: nat): seq<Move> {
    [Poll] + (if knownBlock != hash then [SendOther(BestBtcBlock(BtcState(height, hash)))] else []) + Drain(count)
  }

  /** After polling, what `process_btc_events` sends is what those moves put into the queue. */
  lemma HotMovesSend(f: Flight, knownBlock: string, hash: string, height: nat)
    requires f.batch == []
    ensures var moves := HotMoves(knownBlock, hash, height, |f.buffer|);
      var first := if knownBlock != hash then [BestBtcBlock(BtcState(height, hash))] else [];
      && Possible(f, moves)
      && After(f, moves) == f.(buffer := [], queue := f.queue + (first + Bodies(f.buffer)))
  {
    hide Bodies;
    var moves, rest := HotMoves(knownBlock, hash, height, |f.buffer|), Drain(|f.buffer|);
    var polled := Moved(f, Poll);
    if knownBlock != hash {
      var block := BestBtcBlock(BtcState(height, hash));
      assert moves[0] == Poll && moves[1..][0] == SendOther(block) && moves[1..][1..] == rest;
      DrainSendsAll(Moved(polled, SendOther(block)));
      Regroup(f.queue, [block], Bodies(f.buffer));
    } else {
      assert moves[0] == Poll && moves[1..] == rest;
      DrainSendsAll(polled);
      assert [] + Bodies(f.buffer) == Bodies(f.buffer);
    }
  }

  /**
   The Bitcoin module's scan state, the channel, and the update worker at its other end.
   Between turns nothing is polled and unsent; inside a turn of the hot wallet others may
   put their own updates between its sends, which the moves allow.
   */
  class BtcPath {
    const scanState: ScanState
    var queue: seq<UpdateBody>
    var applied: seq<UpdateBody>
    ghost var scanned: seq<BtcEvent>

    ghost function View(): Flight
      reads this, scanState
    {
      Flight(scanned, scanState.events, [], queue, applied)
    }

    constructor (genesis: string)
      ensures View() == Flight([], [], [], [], []) && InOrderExactlyOnce(View())
      ensures fresh(scanState)
    {
      scanState := new ScanState(genesis);
      queue, applied, scanned := [], [], [];
    }

    /** A turn of `node_worker`. */
    method NodeTurn(answer: Option<ListSince>, height: Option<nat>)
      requires InOrderExactlyOnce(View())
      modifies this`scanned, scanState
      ensures View() == if answer.Some? then Moved(old(View()), Scan(Scanned(answer.value))) else old(View())
      ensures InOrderExactlyOnce(View())
    {
      ghost var before := View();
      scanState.Scan(answer, height);
      if answer.Some? {
        scanned := scanned + Scanned(answer.value);
        ScanKeeps(before, Scanned(answer.value));
      } else {
        assert before.buffer + [] == before.buffer;
      }
    }

    /** A turn of `btc_worker`: poll, then send everything polled. */
    method HotTurn(knownBlock: string)
      requires InOrderExactlyOnce(View())
      modifies this`queue, scanState`events
      ensures var moves := HotMoves(knownBlock, scanState.lastBlock, scanState.lastHeight, |old(scanState.events)|);
        Possible(old(View()), moves) && View() == After(old(View()), moves)
      ensures scanState.events == [] && InOrderExactlyOnce(View())
      ensures old(queue) <= queue && Delivers(old(scanState.events), queue[|old(queue)|..])
    {
      hide Delivers;
      ghost var before := View();
      var hash, height, polled := scanState.Poll();
      var sent := ProcessBtcEvents(knownBlock, hash, height, polled);
      queue := queue + sent;
      assert queue[|old(queue)|..] == sent;
      HotMovesSend(before, knownBlock, hash, height);
      DeliveredExactlyOnceInOrder(before, HotMoves(knownBlock, hash, height, |polled|));
    }

    /** The update worker takes the next update off the channel. */
    method Receive() returns (body: UpdateBody)
      requires InOrderExactlyOnce(View()) && queue != []
      modifies this`queue, this`applied
      ensures View() == Moved(old(View()), Apply) && body == old(queue)[0]
      ensures InOrderExactlyOnce(View())
    {
      hide InOrderExactlyOnce;
      ghost var before := View();
      body := queue[0];
      queue, applied := queue[1..], applied + [queue[0]];
      ApplyKeeps(before);
    }
  }
}
