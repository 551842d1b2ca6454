/**
 Blockchain transactions credited to an account, and the two in-place edits the
 ledger makes on a transaction list when the Bitcoin module reports an update or
 a cancel. The list is shown to refine a map from outpoints to transactions.
 */
module Transactions {
  import opened Domain

  datatype BtcTransaction = BtcTransaction(
    txid: Txid,
    vout: nat,
    address: string,
    confirmations: nat,
    amount: i64,
    timestamp: Time,
    conflicts: seq<Txid>,
    fee: Option<u64>
  )
  {
    function Key(): Outpoint {
      Outpoint(txid, vout)
    }
  }

  datatype EthTransaction = EthTransaction(hash: string, from: string, addr: string, amount: i64, confirmations: int)

  datatype Transaction = Btc(btc: BtcTransaction) | Eth(eth: EthTransaction)
  {
    function Amount(): int {
      match this
      case Btc(tx) => tx.amount
      case Eth(tx) => tx.amount
    }

    predicate IsFinalized() {
      match this
      case Btc(tx) => tx.confirmations > 3
      case Eth(tx) => tx.confirmations > 3
    }

    predicate IsConflicted() {
      match this
      case Btc(tx) => tx.confirmations == 0 && tx.conflicts != []
      case Eth(tx) => tx.confirmations < 0
    }

    /** What the transaction adds to `balance`. */
    function Counted(): int {
      if IsConflicted() then 0 else Amount()
    }

    /** What the transaction adds to `finalized_balance`. */
    function Settled(): int {
      if IsFinalized() then Amount() else 0
    }

    predicate IsAt(o: Outpoint) {
      Btc? && btc.Key() == o
    }
  }

  datatype Outpoint = Outpoint(txid: Txid, vout: nat)

  datatype TxDirection = Deposit | Withdraw

  datatype TxCancel = TxCancel(
    direction: TxDirection,
    txid: Txid,
    vout: nat,
    address: string,
    amount: u64,
    timestamp: Time,
    conflicts: seq<Txid>
  )
  {
    function Key(): Outpoint {
      Outpoint(txid, vout)
    }
  }

  datatype TxUpdate = TxUpdate(
    direction: TxDirection,
    txid: Txid,
    vout: nat,
    address: string,
    amount: u64,
    confirmations: nat,
    timestamp: Time,
    conflicts: seq<Txid>,
    fee: Option<u64>
  )
  {
    /** The ledger's record of a reported transaction: withdrawals carry a negative amount. */
    function ToTransaction(): BtcTransaction {
      BtcTransaction(txid, vout, address, confirmations,
                     match direction
                     case Deposit => AsI64(amount)
                     case Withdraw => AsI64(-(AsI64(amount) as int)),
                     timestamp, conflicts, fee)
    }
  }

  // ---------- The edits, as functions ----------

  /** Index of the first Bitcoin entry at outpoint `o`, or the length of the list. */
  function Position(txs: seq<Transaction>, o: Outpoint): (r: nat)
    ensures r <= |txs|
    ensures r < |txs| ==> txs[r].IsAt(o)
    ensures forall j :: 0 <= j < r ==> !txs[j].IsAt(o)
  {
    if txs == [] || txs[0].IsAt(o) then 0 else 1 + Position(txs[1..], o)
  }

  /** Replace the entry at the transaction's outpoint, or append it; withdrawals are ignored. */
  function Upsert(txs: seq<Transaction>, tx: BtcTransaction): seq<Transaction> {
    var i := Position(txs, tx.Key());
    if tx.amount < 0 then txs
    else if i < |txs| then txs[i := Btc(tx)]
    else txs + [Btc(tx)]
  }

  /** Drop the first entry at outpoint `o`, if there is one. */
  function Remove(txs: seq<Transaction>, o: Outpoint): seq<Transaction> {
    var i := Position(txs, o);
    if i < |txs| then txs[..i] + txs[i + 1..] else txs
  }

  // ---------- The list refines a map from outpoints ----------

  ghost predicate Distinct(txs: seq<Transaction>) {
    forall i, j :: 0 <= i < j < |txs| && txs[i].Btc? && txs[j].Btc? ==>
      txs[i].btc.Key() != txs[j].btc.Key()
  }

  function Lookup(txs: seq<Transaction>, o: Outpoint): Option<BtcTransaction> {
    var i := Position(txs, o);
    if i < |txs| then Some(txs[i].btc) else None
  }

  /** The index of an entry decides its position when outpoints are distinct. */
  lemma PositionIs(txs: seq<Transaction>, o: Outpoint, i: nat)
    requires i <= |txs|
    requires i < |txs| ==> txs[i].IsAt(o)
    requires forall j :: 0 <= j < i ==> !txs[j].IsAt(o)
    ensures Position(txs, o) == i
  {}

  /** An update overwrites exactly its own outpoint and keeps the list free of duplicates. */
  lemma UpsertRefines(txs: seq<Transaction>, tx: BtcTransaction, o: Outpoint)
    ensures Lookup(Upsert(txs, tx), o) == if tx.amount >= 0 && o == tx.Key() then Some(tx) else Lookup(txs, o)
    ensures Distinct(txs) ==> Distinct(Upsert(txs, tx))
  {
    var after := Upsert(txs, tx);
    var i, r := Position(txs, tx.Key()), Position(txs, o);
    if tx.amount >= 0 {
      if o == tx.Key() {
        PositionIs(after, o, i);
      } else if r < |txs| || i < |txs| {
        assert forall j :: 0 <= j < r ==> after[j] == txs[j] || after[j] == Btc(tx);
        PositionIs(after, o, r);
      } else {
        PositionIs(after, o, |after|);
      }
    }
  }

  /** The entries left after dropping the one at index `i`. */
  lemma EntriesLeft(txs: seq<Transaction>, i: nat)
    requires i < |txs|
    ensures var after := txs[..i] + txs[i + 1..];
      && |after| == |txs| - 1
      && (forall j :: 0 <= j < i ==> after[j] == txs[j])
      && (forall j :: i <= j < |after| ==> after[j] == txs[j + 1])
  {}

  lemma LeftDistinct(txs: seq<Transaction>, i: nat)
    requires i < |txs| && Distinct(txs)
    ensures Distinct(txs[..i] + txs[i + 1..])
  {
    EntriesLeft(txs, i);
    var after := txs[..i] + txs[i + 1..];
    forall j, k | 0 <= j < k < |after| && after[j].Btc? && after[k].Btc?
      ensures after[j].btc.Key() != after[k].btc.Key() {
      assert after[j] == txs[if j < i then j else j + 1];
      assert after[k] == txs[if k < i then k else k + 1];
    }
  }

  /** A distinct list without the entry at `o` has no other entry there. */
  lemma NoneLeft(txs: seq<Transaction>, i: nat, o: Outpoint)
    requires i < |txs| && Distinct(txs) && txs[i].IsAt(o)
    ensures Position(txs[..i] + txs[i + 1..], o) == |txs| - 1
  {
    EntriesLeft(txs, i);
    var after := txs[..i] + txs[i + 1..];
    forall j | 0 <= j < |after| ensures !after[j].IsAt(o) {
      assert after[j] == txs[if j < i then j else j + 1];
    }
    PositionIs(after, o, |after|);
  }

  /** Dropping an entry moves the others up by at most one. */
  lemma OthersMoveUp(txs: seq<Transaction>, i: nat, o: Outpoint)
    requires i < |txs| && !txs[i].IsAt(o)
    ensures var r := Position(txs, o); Position(txs[..i] + txs[i + 1..], o) == if r < i then r else r - 1
  {
    EntriesLeft(txs, i);
    var after, r := txs[..i] + txs[i + 1..], Position(txs, o);
    var moved := if r < i then r else r - 1;
    forall j | 0 <= j < moved ensures !after[j].IsAt(o) {
      assert after[j] == txs[if j < i then j else j + 1];
    }
    PositionIs(after, o, moved);
  }

  /** A cancel clears exactly its own outpoint. */
  lemma RemoveRefines(txs: seq<Transaction>, gone: Outpoint, o: Outpoint)
    requires Distinct(txs)
    ensures Lookup(Remove(txs, gone), o) == if o == gone then None else Lookup(txs, o)
    ensures Distinct(Remove(txs, gone))
  {
    var i := Position(txs, gone);
    if i < |txs| {
      LeftDistinct(txs, i);
      if o == gone {
        NoneLeft(txs, i, o);
      } else {
        OthersMoveUp(txs, i, o);
        EntriesLeft(txs, i);
      }
    }
  }

  /** Cancelling a deposit that was seen for the first time restores the list itself, not just its meaning. */
  lemma CancelUndoesFirstSeen(txs: seq<Transaction>, tx: BtcTransaction)
    requires tx.amount >= 0 && Lookup(txs, tx.Key()) == None
    ensures Remove(Upsert(txs, tx), tx.Key()) == txs
  {}

  // ---------- Histories of deposit events ----------

  datatype DepositEvent = Seen(tx: BtcTransaction) | Dropped(cancel: TxCancel)
  {
    function At(): Outpoint {
      match this
      case Seen(tx) => tx.Key()
      case Dropped(c) => c.Key()
    }
  }

  function Record(txs: seq<Transaction>, e: DepositEvent): seq<Transaction> {
    match e
    case Seen(tx) => Upsert(txs, tx)
    case Dropped(c) => Remove(txs, c.Key())
  }

  function RecordAll(txs: seq<Transaction>, es: seq<DepositEvent>): seq<Transaction> {
    if es == [] then txs else Record(RecordAll(txs, es[..|es| - 1]), es[|es| - 1])
  }

  /** The events about one outpoint, in order. */
  function AtOutpoint(es: seq<DepositEvent>, o: Outpoint): seq<DepositEvent> {
    if es == [] then []
    else AtOutpoint(es[..|es| - 1], o) + if es[|es| - 1].At() == o then [es[|es| - 1]] else []
  }

  /** What the last effective event about an outpoint leaves there. */
  function LastAt(before: Option<BtcTransaction>, es: seq<DepositEvent>): Option<BtcTransaction> {
    if es == [] then before
    else
      match es[|es| - 1]
      case Dropped(_) => None
      case Seen(tx) => if tx.amount >= 0 then Some(tx) else LastAt(before, es[..|es| - 1])
  }

  /** The last event per outpoint wins, whatever happened at other outpoints. */
  lemma {:induction false} LastEventWins(txs: seq<Transaction>, es: seq<DepositEvent>, o: Outpoint)
    requires Distinct(txs)
    ensures Distinct(RecordAll(txs, es))
    ensures Lookup(RecordAll(txs, es), o) == LastAt(Lookup(txs, o), AtOutpoint(es, o))
  {
    if es != [] {
      var init, e := es[..|es| - 1], es[|es| - 1];
      LastEventWins(txs, init, o);
      var mid := RecordAll(txs, init);
      match e {
        case Seen(tx) => UpsertRefines(mid, tx, o);
        case Dropped(c) => RemoveRefines(mid, c.Key(), o);
      }
      var here := AtOutpoint(es, o);
      if e.At() == o {
        assert here[..|here| - 1] == AtOutpoint(init, o);
      } else {
        assert here == AtOutpoint(init, o);
      }
    }
  }

  // ---------- The balance depends on the map only ----------

  function CountedSum(txs: seq<Transaction>): int {
    if txs == [] then 0 else CountedSum(txs[..|txs| - 1]) + txs[|txs| - 1].Counted()
  }

  function SettledSum(txs: seq<Transaction>): int {
    if txs == [] then 0 else SettledSum(txs[..|txs| - 1]) + txs[|txs| - 1].Settled()
  }

  function AmountSum(txs: seq<Transaction>): int {
    if txs == [] then 0 else AmountSum(txs[..|txs| - 1]) + txs[|txs| - 1].Amount()
  }

  /** Everything but the Bitcoin entries; no deposit event touches it. */
  function EthPart(txs: seq<Transaction>): seq<Transaction> {
    if txs == [] then []
    else EthPart(txs[..|txs| - 1]) + if txs[|txs| - 1].Eth? then [txs[|txs| - 1]] else []
  }

  lemma {:induction false} SumsWithout(txs: seq<Transaction>, i: nat)
    requires i < |txs|
    ensures CountedSum(txs) == CountedSum(txs[..i] + txs[i + 1..]) + txs[i].Counted()
    ensures AmountSum(txs) == AmountSum(txs[..i] + txs[i + 1..]) + txs[i].Amount()
    ensures txs[i].Btc? ==> EthPart(txs) == EthPart(txs[..i] + txs[i + 1..])
  {
    var init, last := txs[..|txs| - 1], txs[|txs| - 1];
    var rest := txs[..i] + txs[i + 1..];
    if i == |txs| - 1 {
      assert rest == init;
    } else {
      SumsWithout(init, i);
      assert rest[..|rest| - 1] == init[..i] + init[i + 1..];
      assert rest[|rest| - 1] == last;
    }
  }

  /** Replacing an entry exchanges its contribution. */
  lemma {:induction false} SumsReplaced(txs: seq<Transaction>, i: nat, t: Transaction)
    requires i < |txs|
    ensures CountedSum(txs[i := t]) == CountedSum(txs) - txs[i].Counted() + t.Counted()
    ensures AmountSum(txs[i := t]) == AmountSum(txs) - txs[i].Amount() + t.Amount()
    ensures txs[i].Btc? && t.Btc? ==> EthPart(txs[i := t]) == EthPart(txs)
  {
    SumsWithout(txs, i);
    SumsWithout(txs[i := t], i);
    assert txs[i := t][..i] + txs[i := t][i + 1..] == txs[..i] + txs[i + 1..];
  }

  lemma UpsertKeepsEth(txs: seq<Transaction>, tx: BtcTransaction)
    ensures EthPart(Upsert(txs, tx)) == EthPart(txs)
  {
    var i := Position(txs, tx.Key());
    if tx.amount >= 0 && i < |txs| {
      SumsReplaced(txs, i, Btc(tx));
    } else if tx.amount >= 0 {
      var after := txs + [Btc(tx)];
      assert after[..|after| - 1] == txs;
    }
  }

  lemma RemoveKeepsEth(txs: seq<Transaction>, o: Outpoint)
    ensures EthPart(Remove(txs, o)) == EthPart(txs)
  {
    var i := Position(txs, o);
    if i < |txs| {
      SumsWithout(txs, i);
    }
  }

  lemma {:induction false} RecordAllKeepsEth(txs: seq<Transaction>, es: seq<DepositEvent>)
    ensures EthPart(RecordAll(txs, es)) == EthPart(txs)
  {
    if es != [] {
      RecordAllKeepsEth(txs, es[..|es| - 1]);
      match es[|es| - 1] {
        case Seen(tx) => UpsertKeepsEth(RecordAll(txs, es[..|es| - 1]), tx);
        case Dropped(c) => RemoveKeepsEth(RecordAll(txs, es[..|es| - 1]), c.Key());
      }
    }
  }

  ghost predicate SameMap(a: seq<Transaction>, b: seq<Transaction>) {
    forall o :: Lookup(a, o) == Lookup(b, o)
  }

  /** Dropping the same outpoint from both lists keeps them the same map. */
  lemma RemoveKeepsSameMap(a: seq<Transaction>, b: seq<Transaction>, o: Outpoint)
    requires Distinct(a) && Distinct(b) && SameMap(a, b)
    ensures Distinct(Remove(a, o)) && Distinct(Remove(b, o)) && SameMap(Remove(a, o), Remove(b, o))
  {
    forall p ensures Lookup(Remove(a, o), p) == Lookup(Remove(b, o), p) {
      RemoveRefines(a, o, p);
      RemoveRefines(b, o, p);
      assert Lookup(a, p) == Lookup(b, p);
    }
    RemoveRefines(a, o, o);
    RemoveRefines(b, o, o);
  }

  /** What dropping a stored outpoint takes off the counted sum. */
  lemma RemoveCounted(txs: seq<Transaction>, o: Outpoint)
    requires Lookup(txs, o).Some?
    ensures CountedSum(Remove(txs, o)) == CountedSum(txs) - Btc(Lookup(txs, o).value).Counted()
    ensures |Remove(txs, o)| == |txs| - 1
  {
    SumsWithout(txs, Position(txs, o));
  }

  /** Lists that agree as maps from outpoints, and on the other entries, have the same counted sum. */
  lemma {:induction false} SameMapSameSum(a: seq<Transaction>, b: seq<Transaction>)
    requires Distinct(a) && Distinct(b) && SameMap(a, b) && EthPart(a) == EthPart(b)
    ensures CountedSum(a) == CountedSum(b)
    decreases |a|
  {
    if i :| 0 <= i < |a| && a[i].Btc? {
      var o := a[i].btc.Key();
      PositionIs(a, o, i);
      assert Lookup(a, o) == Lookup(b, o);
      RemoveKeepsSameMap(a, b, o);
      RemoveKeepsEth(a, o);
      RemoveKeepsEth(b, o);
      RemoveCounted(a, o);
      RemoveCounted(b, o);
      SameMapSameSum(Remove(a, o), Remove(b, o));
    } else {
      AllEth(a);
      forall j | 0 <= j < |b| ensures b[j].Eth? {
        if b[j].Btc? {
          var here, there := Lookup(a, b[j].btc.Key()), Lookup(b, b[j].btc.Key());
          PositionIs(b, b[j].btc.Key(), j);
        }
      }
      AllEth(b);
    }
  }

  lemma {:induction false} AllEth(txs: seq<Transaction>)
    requires forall i :: 0 <= i < |txs| ==> txs[i].Eth?
    ensures EthPart(txs) == txs
  {
    if txs != [] {
      AllEth(txs[..|txs| - 1]);
    }
  }

  /**
   Any reordering of updates and cancels that keeps the order at each outpoint
   leaves the same deposits, hence the same counted sum.
   */
  lemma ReorderingKeepsBalance(txs: seq<Transaction>, es: seq<DepositEvent>, fs: seq<DepositEvent>)
    requires Distinct(txs)
    requires forall o :: AtOutpoint(es, o) == AtOutpoint(fs, o)
    ensures SameMap(RecordAll(txs, es), RecordAll(txs, fs))
    ensures CountedSum(RecordAll(txs, es)) == CountedSum(RecordAll(txs, fs))
  {
    var a, b := RecordAll(txs, es), RecordAll(txs, fs);
    forall o ensures Lookup(a, o) == Lookup(b, o) {
      LastEventWins(txs, es, o);
      LastEventWins(txs, fs, o);
      assert AtOutpoint(es, o) == AtOutpoint(fs, o);
    }
    LastEventWins(txs, es, Outpoint("", 0));
    LastEventWins(txs, fs, Outpoint("", 0));
    RecordAllKeepsEth(txs, es);
    RecordAllKeepsEth(txs, fs);
    SameMapSameSum(a, b);
  }

  /** The two edits bring in no entry but the one reported. */
  lemma EditMembers(txs: seq<Transaction>, tx: BtcTransaction, o: Outpoint)
    ensures forall t :: t in Upsert(txs, tx) ==> t in txs || t == Btc(tx)
    ensures forall t :: t in Remove(txs, o) ==> t in txs
  {}

  /** How an update moves the plain sum of the amounts. */
  lemma UpsertAmount(txs: seq<Transaction>, tx: BtcTransaction)
    requires Distinct(txs) && tx.amount >= 0
    ensures var known := Lookup(txs, tx.Key());
      AmountSum(Upsert(txs, tx)) == AmountSum(txs) + tx.amount - if known.Some? then known.value.amount else 0
    ensures Distinct(Upsert(txs, tx))
  {
    var i := Position(txs, tx.Key());
    UpsertRefines(txs, tx, tx.Key());
    if i < |txs| {
      SumsReplaced(txs, i, Btc(tx));
    } else {
      var after := txs + [Btc(tx)];
      assert after[..|after| - 1] == txs;
    }
  }

  /** How a cancel moves it. */
  lemma RemoveAmount(txs: seq<Transaction>, o: Outpoint)
    requires Distinct(txs)
    ensures var known := Lookup(txs, o);
      AmountSum(Remove(txs, o)) == AmountSum(txs) - if known.Some? then known.value.amount else 0
    ensures Distinct(Remove(txs, o))
  {
    var i := Position(txs, o);
    RemoveRefines(txs, o, o);
    if i < |txs| {
      SumsWithout(txs, i);
    }
  }
}
