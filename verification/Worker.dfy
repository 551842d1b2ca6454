/**
 The update worker: one mutable ledger, a table of stored updates, and the results sent on.
 Each update is applied to a clone, stored, and only then does the clone become the state,
 so a refused or half-applied update and a failed insert leave nothing behind.
 */
module Workers {
  import opened Domain
  import opened Updates
  import opened StateMachine
  import opened Invariants
  import opened Runs
  import opened Requests
  import opened Replay
  import opened Ledgers

  /** An update as received, with the id and clock reading it may draw, and whether the insert will succeed. */
  datatype Arrival = Arrival(update: StateUpdate, newId: Uuid, clock: string, stored: bool)

  ghost predicate Served(inbox: seq<Arrival>, served: seq<Inbound>) {
    && |served| == |inbox|
    && forall i :: 0 <= i < |inbox| ==>
         && served[i].update == inbox[i].update && served[i].stored == inbox[i].stored
         && served[i].nd.limitId == inbox[i].newId && served[i].nd.limitCreatedAt == inbox[i].clock
  }

  lemma ServeNext(w: Committed, served: seq<Inbound>, i: Inbound)
    ensures ServeAll(w, served + [i]) == Serve(ServeAll(w, served), i)
    ensures AdmissibleRun(w, served) && Admissible(ServeAll(w, served).state, i.update.body, i.nd)
      ==> AdmissibleRun(w, served + [i])
  {}

  lemma ServedNext(inbox: seq<Arrival>, served: seq<Inbound>, k: nat, nd: Nondet)
    requires k < |inbox| && Served(inbox[..k], served)
    requires nd.limitId == inbox[k].newId && nd.limitCreatedAt == inbox[k].clock
    ensures Served(inbox[..k + 1], served + [Inbound(inbox[k].update, nd, inbox[k].stored)])
  {}

  class UpdateWorker {
    var state: Ledger
    var table: seq<StateUpdate>
    var responses: seq<UpdateResult>

    ghost function View(): Committed
      reads this, state, state.exchangeState
    {
      Committed(state.View(), table, responses)
    }

    constructor (start: State)
      ensures View() == Committed(start, [], [])
    {
      state := new Ledger(start);
      table, responses := [], [];
    }

    /** One turn of the loop: clone, apply, store, commit. */
    method ServeOne(i: Arrival) returns (ghost nd: Nondet)
      modifies this
      ensures nd.limitId == i.newId && nd.limitCreatedAt == i.clock
      ensures Admissible(old(View()).state, i.update.body, nd)
      ensures View() == Serve(old(View()), Inbound(i.update, nd, i.stored))
    {
      hide Apply, Admissible;
      var copy := state.Clone();
      var r;
      r, nd := copy.ApplyUpdate(i.update, i.newId, i.clock);
      if r.Ok? && i.stored {
        table := table + [i.update];
        state := copy;
        if r.value.Some? {
          responses := responses + [r.value.value];
        }
      }
    }

    /** The receive loop, over everything that arrives before the channel closes. */
    method Run(inbox: seq<Arrival>) returns (ghost served: seq<Inbound>)
      modifies this
      ensures Served(inbox, served)
      ensures View() == ServeAll(old(View()), served)
      ensures AdmissibleRun(old(View()), served)
    {
      served := [];
      ghost var start := View();
      for k := 0 to |inbox|
        invariant Served(inbox[..k], served)
        invariant View() == ServeAll(start, served)
        invariant AdmissibleRun(start, served)
      {
        ghost var nd := ServeOne(inbox[k]);
        ghost var next := Inbound(inbox[k].update, nd, inbox[k].stored);
        ServeNext(start, served, next);
        ServedNext(inbox, served, k, nd);
        served := served + [next];
      }
      assert inbox[..|inbox|] == inbox;
    }
  }

  // ---------- What holds of runs holds of the worker ----------

  /** The updates that were committed, as steps of a run. */
  ghost function CommittedSteps(w: Committed, inbox: seq<Inbound>): seq<Step> {
    if inbox == [] then []
    else
      var init, i := inbox[..|inbox| - 1], inbox[|inbox| - 1];
      CommittedSteps(w, init)
      + if Apply(ServeAll(w, init).state, i.update, i.nd).Ok? && i.stored then [Step(i.update, i.nd)] else []
  }

  /** The worker's states are those of a run, and the results it sends are what that run emits. */
  lemma {:induction false} WorkerIsARun(w: Committed, inbox: seq<Inbound>)
    ensures var steps := CommittedSteps(w, inbox);
      && ServeAll(w, inbox).state == Run(w.state, steps)
      && ServeAll(w, inbox).responses == w.responses + Emitted(w.state, steps)
  {
    hide Apply;
    if inbox == [] {
      assert w.responses + [] == w.responses;
    } else {
      var init, i := inbox[..|inbox| - 1], inbox[|inbox| - 1];
      WorkerIsARun(w, init);
      var before, steps := CommittedSteps(w, init), CommittedSteps(w, inbox);
      if steps != before {
        assert steps[..|steps| - 1] == before;
      }
    }
  }

  /** The worker sends a confirmation of each withdrawal at most once. */
  lemma ConfirmationSentOnce(s0: State, inbox: seq<Inbound>, i: nat, j: nat)
    requires StateOk(s0) && NoRequests(s0)
    requires var steps := CommittedSteps(Committed(s0, [], []), inbox); FreshIds(steps) && SnapshotsCurrent(s0, steps)
    requires var sent := ServeAll(Committed(s0, [], []), inbox).responses; i < j < |sent| && sent[i].WithdrawConfirmed?
    ensures var sent := ServeAll(Committed(s0, [], []), inbox).responses; sent[i] != sent[j]
  {
    var w0 := Committed(s0, [], []);
    var steps := CommittedSteps(w0, inbox);
    WorkerIsARun(w0, inbox);
    ConfirmedAtMostOnce(s0, steps);
    assert [] + Emitted(s0, steps) == Emitted(s0, steps);
  }

  // ---------- Reading the log back ----------

  /** Ids and clock readings a fold may draw, one pair per update. */
  datatype Draw = Draw(newId: Uuid, clock: string)

  lemma CollectNext(s0: State, log: seq<StateUpdate>, nds: seq<Nondet>, k: nat, nd: Nondet)
    requires k < |log| && |nds| == k && Collect(s0, log[..k], nds).Ok?
    ensures Collect(s0, log[..k + 1], nds + [nd]) ==
      match Apply(Collect(s0, log[..k], nds).value, log[k], nd)
      case Ok(o) => Ok(o.state)
      case Err(e) => Err(e)
    ensures AdmissibleAlong(s0, log[..k], nds) && Admissible(Collect(s0, log[..k], nds).value, log[k].body, nd)
      ==> AdmissibleAlong(s0, log[..k + 1], nds + [nd])
  {
    assert log[..k + 1][..k] == log[..k] && (nds + [nd])[..k] == nds;
  }

  /** A fold that fails early fails as a whole. */
  lemma {:induction false} CollectFails(s0: State, log: seq<StateUpdate>, nds: seq<Nondet>, n: nat)
    requires |nds| == |log| && n <= |log| && Collect(s0, log[..n], nds[..n]).Err?
      && AdmissibleAlong(s0, log[..n], nds[..n])
    ensures Collect(s0, log, nds) == Collect(s0, log[..n], nds[..n]) && AdmissibleAlong(s0, log, nds)
    decreases |log|
  {
    var m := |log| - 1;
    if n == |log| {
      assert log[..n] == log && nds[..n] == nds;
    } else {
      assert log[..m][..n] == log[..n] && nds[..m][..n] == nds[..n];
      CollectFails(s0, log[..m], nds[..m], n);
    }
  }

  /** `collect`: fold a log into a new ledger, stopping at the first error. */
  method CollectLog(start: State, log: seq<StateUpdate>, draws: seq<Draw>)
    returns (r: Result<Ledger, StateUpdateErr>, ghost nds: seq<Nondet>)
    requires |draws| == |log|
    ensures |nds| == |log| && AdmissibleAlong(start, log, nds)
    ensures match Collect(start, log, nds)
      case Ok(s) => r.Ok? && fresh(r.value) && r.value.View() == s
      case Err(e) => r == Err(e)
  {
    hide Apply, Admissible;
    var ledger := new Ledger(start);
    nds := [];
    for k := 0 to |log|
      invariant fresh(ledger) && fresh(ledger.exchangeState)
      invariant |nds| == k && AdmissibleAlong(start, log[..k], nds)
      invariant Collect(start, log[..k], nds) == Ok(ledger.View())
    {
      var outcome, nd := ledger.ApplyUpdate(log[k], draws[k].newId, draws[k].clock);
      CollectNext(start, log, nds, k, nd);
      nds := nds + [nd];
      if outcome.Err? {
        ghost var failed := nds;
        nds := nds + seq(|log| - k - 1, _ => nd);
        assert nds[..k + 1] == failed;
        CollectFails(start, log, nds, k + 1);
        return Err(outcome.error), nds;
      }
    }
    assert log[..|log|] == log;
    return Ok(ledger), nds;
  }

  /** `query_state`: read back to the newest snapshot, reverse, fold. */
  method QueryState(start: State, rows: seq<StateUpdate>, draws: seq<Draw>)
    returns (r: Result<Ledger, StateUpdateErr>, ghost nds: seq<Nondet>)
    requires |draws| == |rows|
    ensures var kept := Reverse(UpToSnapshot(rows));
      && |nds| == |kept| && AdmissibleAlong(start, kept, nds)
      && match Collect(start, kept, nds)
         case Ok(s) => r.Ok? && fresh(r.value) && r.value.View() == s
         case Err(e) => r == Err(e)
  {
    var parsed := QueryUpdates(rows);
    KeptNoLonger(rows);
    r, nds := CollectLog(start, Reverse(parsed), draws[..|parsed|]);
  }

  lemma {:induction false} KeptNoLonger(rows: seq<StateUpdate>)
    ensures |UpToSnapshot(rows)| <= |rows|
  {
    if rows != [] {
      KeptNoLonger(rows[1..]);
    }
  }

  // ---------- Serving, stopping and starting again ----------

  lemma {:induction false} LogNoLonger(w: Committed, served: seq<Inbound>)
    ensures |ServeAll(w, served).log| <= |w.log| + |served|
  {
    if served != [] {
      LogNoLonger(w, served[..|served| - 1]);
    }
  }

  /**
   A worker serves its inbox and stops; its table is read back, newest first as the database
   `answer`s, and folded into a new ledger. If the stamps in the table are ordered and the
   worker's searches were unambiguous, the new ledger holds what the worker's held.
   */
  method ServeAndRestart(network: Network, now: Time, later: Time, inbox: seq<Arrival>,
                         answer: seq<StateUpdate> -> seq<StateUpdate>, draws: seq<Draw>)
    returns (worker: UpdateWorker, r: Result<Ledger, StateUpdateErr>, ghost served: seq<Inbound>)
    requires forall log :: NewestFirst(answer(log), log)
    requires |draws| == |inbox|
    ensures Served(inbox, served) && worker.View() == ServeAll(Committed(NewState(network, now), [], []), served)
    ensures UnambiguousRun(Committed(NewState(network, now), [], []), served) && Ordered(worker.table) ==>
      r.Ok? && fresh(r.value) && Agrees(worker.state.View(), worker.table, Ok(r.value.View()))
  {
    hide ServeAll, UnambiguousRun, AdmissibleRun, NewState, Collect, Ordered, Reverse, UpToSnapshot, AdmissibleAlong;
    var start, again := NewState(network, now), NewState(network, later);
    ghost var w0 := Committed(start, [], []);
    worker := new UpdateWorker(start);
    served := worker.Run(inbox);
    var rows := answer(worker.table);
    LogNoLonger(w0, served);
    SameLength(rows, worker.table);
    ghost var nds;
    r, nds := QueryState(again, rows, draws[..|rows|]);
    if UnambiguousRun(w0, served) && Ordered(worker.table) {
      NewStatesEquivalent(network, now, later);
      RestartRebuilds(start, again, served, rows, nds);
    }
  }

  lemma NewStatesEquivalent(network: Network, now: Time, later: Time)
    ensures Equivalent(NewState(network, now), NewState(network, later))
  {}
}
