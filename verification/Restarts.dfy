/**
 A custody that is stopped and started again, any number of times and anywhere between two
 updates, against one that never stops.
 */
module Restarts {
  import opened Domain
  import opened Updates
  import opened StateMachine
  import opened Replay

  /** What happens to a custody: an update arrives, or it is restarted from what the database answers. */
  datatype Event =
    | Arrives(i: Inbound)
    | Restarts(start: State, rows: seq<StateUpdate>, draws: nat -> Nondet)

  /** The fold of what was read back, newest first, with fresh ids, clocks and searches. */
  ghost function ReadBack(start: State, rows: seq<StateUpdate>, draws: nat -> Nondet): Result<State, StateUpdateErr> {
    var kept := Reverse(UpToSnapshot(rows));
    Collect(start, kept, seq(|kept|, draws))
  }

  /** The next worker: its state was rebuilt, the table is the same, and what was sent stays sent. */
  ghost function Happen(w: Committed, e: Event): Result<Committed, StateUpdateErr> {
    match e
    case Arrives(i) => Ok(Serve(w, i))
    case Restarts(start, rows, draws) =>
      var state :- ReadBack(start, rows, draws);
      Ok(w.(state := state))
  }

  ghost function Live(w: Committed, events: seq<Event>): Result<Committed, StateUpdateErr> {
    if events == [] then Ok(w)
    else
      var before :- Live(w, events[..|events| - 1]);
      Happen(before, events[|events| - 1])
  }

  /** Searches find what they could find; the database answers newest first; a new process starts from a new state. */
  ghost predicate Possible(s0: State, w: Committed, e: Event) {
    match e
    case Arrives(i) => Admissible(w.state, i.update.body, i.nd)
    case Restarts(start, rows, draws) =>
      && Equivalent(s0, start) && Ordered(w.log) && NewestFirst(rows, w.log)
      && var kept := Reverse(UpToSnapshot(rows)); AdmissibleAlong(start, kept, seq(|kept|, draws))
  }

  ghost predicate PossibleLife(s0: State, events: seq<Event>) {
    events != [] ==>
      var init := events[..|events| - 1];
      && PossibleLife(s0, init)
      && var before := Live(Committed(s0, [], []), init);
         before.Ok? ==> Possible(s0, before.value, events[|events| - 1])
  }

  /** The same updates arrive and the same inserts fail; ids, clocks and searches may differ. */
  ghost predicate SameArrivals(events: seq<Event>, inbox: seq<Inbound>) {
    if events == [] then inbox == []
    else
      var init, last := events[..|events| - 1], events[|events| - 1];
      match last
      case Restarts(_, _, _) => SameArrivals(init, inbox)
      case Arrives(i) =>
        && inbox != []
        && inbox[|inbox| - 1] == i.(nd := inbox[|inbox| - 1].nd)
        && SameArrivals(init, inbox[..|inbox| - 1])
  }

  /** Same table, same results sent, and states that differ in nothing the ledger reads. */
  ghost predicate Alike(v: Committed, w: Committed) {
    v.log == w.log && v.responses == w.responses && Agrees(v.state, v.log, Ok(w.state))
  }

  /** Two workers that are alike refuse, store and answer the next update alike. */
  lemma ServeAlike(v: Committed, w: Committed, i: Inbound, j: Inbound)
    requires Alike(v, w) && i == j.(nd := i.nd)
    requires Unambiguous(v.state, i.update.body)
    requires Admissible(v.state, i.update.body, i.nd) && Admissible(w.state, j.update.body, j.nd)
    ensures Alike(Serve(v, i), Serve(w, j))
  {
    hide Apply, Unambiguous, Admissible, Equivalent;
    StepSame(v.state, w.state, i.update, i.nd, j.nd);
  }

  /**
   Restarts cannot be seen: however often and wherever a custody is restarted, no restart
   fails, and its table, its results and its state are those of a custody that never stopped.
   */
  lemma {:induction false} RestartsAreInvisible(s0: State, events: seq<Event>, inbox: seq<Inbound>)
    requires PossibleLife(s0, events) && SameArrivals(events, inbox)
    requires UnambiguousRun(Committed(s0, [], []), inbox) && AdmissibleRun(Committed(s0, [], []), inbox)
    ensures var w := Live(Committed(s0, [], []), events);
      w.Ok? && Alike(ServeAll(Committed(s0, [], []), inbox), w.value)
    decreases |events|
  {
    hide Alike, Serve, Unambiguous, Admissible, Equivalent, Ordered, NewestFirst, Reverse, UpToSnapshot;
    var w0 := Committed(s0, [], []);
    if events == [] {
      AlikeRefl(w0);
    } else {
      var init, last := events[..|events| - 1], events[|events| - 1];
      match last {
        case Arrives(i) =>
          var n := |inbox| - 1;
          RestartsAreInvisible(s0, init, inbox[..n]);
          ServeAlike(ServeAll(w0, inbox[..n]), Live(w0, init).value, inbox[n], i);
        case Restarts(_, _, _) =>
          RestartsAreInvisible(s0, init, inbox);
          RestartAlike(s0, inbox, Live(w0, init).value, last);
      }
    }
  }

  lemma AlikeRefl(w: Committed)
    ensures Alike(w, w)
  {
    EquivalentRefl(w.state);
  }

  /** One restart of a worker that is like one that never stopped. */
  lemma RestartAlike(s0: State, inbox: seq<Inbound>, w: Committed, e: Event)
    requires UnambiguousRun(Committed(s0, [], []), inbox) && AdmissibleRun(Committed(s0, [], []), inbox)
    requires Alike(ServeAll(Committed(s0, [], []), inbox), w) && e.Restarts? && Possible(s0, w, e)
    ensures Happen(w, e).Ok? && Alike(ServeAll(Committed(s0, [], []), inbox), Happen(w, e).value)
  {
    hide Collect, Equivalent, UnambiguousRun, AdmissibleRun, ServeAll, Ordered, NewestFirst, Reverse, UpToSnapshot;
    var kept := Reverse(UpToSnapshot(e.rows));
    RestartRebuilds(s0, e.start, inbox, e.rows, seq(|kept|, e.draws));
  }
}
