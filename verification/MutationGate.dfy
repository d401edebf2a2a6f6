/**
 The mutation gate of internal/compat/ferretdb/internal/handler/mutations.go: a one-slot
 channel around whole read/modify/write commands, as an interleaving state machine. A
 command is a number of rounds, each reading a snapshot of the store and writing back
 replacement documents computed from it; commands, cleanup sweeps and cancellations
 interleave in any way.
 */
module MutationGate {
  import opened Optional

  type Doc = map<string, int>
  type Db = map<string, Doc>

  /** What a round writes back: replacement documents, or None for a deletion. */
  type Change = map<string, Option<Doc>>

  function Overwrite(db: Db, change: Change): Db {
    map id | id in db.Keys + change.Keys && (id in change ==> change[id].Some?) ::
      if id in change then change[id].value else db[id]
  }

  /** effects(t, r, snapshot): the change task t computes in its round r from the snapshot it read. */
  type Effects = (nat, nat, Db) -> Change

  /** A task: waiting at the gate; through the select but before its context check; between rounds;
      with a snapshot in hand; turned away; or finished, with the number of rounds it completed. */
  datatype Phase =
    | Waiting
    | Acquired
    | Running(rounds: nat)
    | Computing(rounds: nat, snapshot: Db)
    | Rejected
    | Finished(rounds: nat)

  /** `token` is the element in the one-slot channel; `order` lists the admitted tasks as they acquired it. */
  datatype World = World(token: bool, phases: seq<Phase>, cancelled: set<nat>, db: Db, order: seq<nat>)

  datatype Step =
    | Cancel(t: nat)   // the task's context ends, at any time
    | Acquire(t: nat)  // the select sends into the channel
    | GiveUp(t: nat)   // the select sees the ended context
    | Check(t: nat)    // ctx.Err() after acquiring
    | Read(t: nat)     // a round reads its snapshot
    | Write(t: nat)    // and writes its replacements
    | Release(t: nat)  // the command returns, after any number of rounds, also by an error

  predicate Enabled(w: World, s: Step) {
    && s.t < |w.phases|
    && match s
       case Cancel(t) => true
       case Acquire(t) => w.phases[t] == Waiting && !w.token
       case GiveUp(t) => w.phases[t] == Waiting && t in w.cancelled
       case Check(t) => w.phases[t] == Acquired
       case Read(t) => w.phases[t].Running?
       case Write(t) => w.phases[t].Computing?
       case Release(t) => w.phases[t].Running? && w.token // receiving from the channel needs its element
  }

  function Next(w: World, s: Step, effects: Effects): World
    requires Enabled(w, s)
  {
    match s
    case Cancel(t) => w.(cancelled := w.cancelled + {t})
    case Acquire(t) => w.(token := true, phases := w.phases[t := Acquired])
    case GiveUp(t) => w.(phases := w.phases[t := Rejected])
    case Check(t) =>
      if t in w.cancelled then w.(token := false, phases := w.phases[t := Rejected])
      else w.(phases := w.phases[t := Running(0)], order := w.order + [t])
    case Read(t) => w.(phases := w.phases[t := Computing(w.phases[t].rounds, w.db)])
    case Write(t) =>
      var p := w.phases[t];
      w.(phases := w.phases[t := Running(p.rounds + 1)], db := Overwrite(w.db, effects(t, p.rounds, p.snapshot)))
    case Release(t) => w.(token := false, phases := w.phases[t := Finished(w.phases[t].rounds)])
  }

  function Start(tasks: nat, db: Db): World {
    World(false, seq(tasks, _ => Waiting), {}, db, [])
  }

  // ---- the serial execution ----

  /** The first `rounds` rounds of task t, each on the store the previous one left. */
  function Alone(t: nat, rounds: nat, db: Db, effects: Effects): Db {
    if rounds == 0 then db
    else
      var before := Alone(t, rounds - 1, db, effects);
      Overwrite(before, effects(t, rounds - 1, before))
  }

  function RoundsDone(p: Phase): nat {
    if p.Running? || p.Computing? || p.Finished? then p.rounds else 0
  }

  /** The admitted tasks one after another in the order they acquired the gate, each for the rounds it completed. */
  function Serial(order: seq<nat>, phases: seq<Phase>, db: Db, effects: Effects): Db
    requires forall i | 0 <= i < |order| :: order[i] < |phases|
    decreases |order|
  {
    if order == [] then db
    else
      var last := order[|order| - 1];
      Alone(last, RoundsDone(phases[last]), Serial(order[..|order| - 1], phases, db, effects), effects)
  }

  // ---- the invariant ----

  predicate Holds(p: Phase) {
    p.Acquired? || p.Running? || p.Computing?
  }

  predicate Admitted(p: Phase) {
    p.Running? || p.Computing? || p.Finished?
  }

  /** At most one holder, the slot is full exactly when there is one, the admitted tasks are listed once
      each in order, and a task between its rounds was admitted last. */
  ghost predicate GateInv(token: bool, phases: seq<Phase>, order: seq<nat>) {
    && (forall t, u | 0 <= t < |phases| && 0 <= u < |phases| && Holds(phases[t]) && Holds(phases[u]) :: t == u)
    && (token <==> exists t :: 0 <= t < |phases| && Holds(phases[t]))
    && (forall i | 0 <= i < |order| :: order[i] < |phases|)
    && (forall i, j | 0 <= i < j < |order| :: order[i] != order[j])
    && (forall t: nat | t < |phases| :: t in order <==> Admitted(phases[t]))
    && (forall t: nat | t < |phases| && (phases[t].Running? || phases[t].Computing?) ::
          order != [] && order[|order| - 1] == t)
  }

  ghost predicate Inv(w: World, db: Db, effects: Effects) {
    && GateInv(w.token, w.phases, w.order)
    && (forall t: nat | t < |w.phases| && w.phases[t].Computing? :: w.phases[t].snapshot == w.db)
    && w.db == Serial(w.order, w.phases, db, effects)
  }

  lemma {:induction false} SerialIgnoresOthers(order: seq<nat>, phases: seq<Phase>, others: seq<Phase>, db: Db,
                                               effects: Effects)
    requires |phases| == |others|
    requires forall i | 0 <= i < |order| ::
               order[i] < |phases| && RoundsDone(phases[order[i]]) == RoundsDone(others[order[i]])
    ensures Serial(order, phases, db, effects) == Serial(order, others, db, effects)
    decreases |order|
  {
    if order != [] {
      SerialIgnoresOthers(order[..|order| - 1], phases, others, db, effects);
    }
  }

  lemma StartHolds(tasks: nat, db: Db, effects: Effects)
    ensures Inv(Start(tasks, db), db, effects)
  {}

  lemma AcquireKeepsGate(phases: seq<Phase>, order: seq<nat>, t: nat)
    requires GateInv(false, phases, order) && t < |phases| && phases[t] == Waiting
    ensures GateInv(true, phases[t := Acquired], order)
  {
    assert Holds(phases[t := Acquired][t]);
    assert forall u | 0 <= u < |phases| :: !Holds(phases[u]);
  }

  lemma GiveUpKeepsGate(token: bool, phases: seq<Phase>, order: seq<nat>, t: nat)
    requires GateInv(token, phases, order) && t < |phases| && phases[t] == Waiting
    ensures GateInv(token, phases[t := Rejected], order)
  {
    if h :| 0 <= h < |phases| && Holds(phases[h]) { assert Holds(phases[t := Rejected][h]); }
  }

  lemma TurnAwayKeepsGate(token: bool, phases: seq<Phase>, order: seq<nat>, t: nat)
    requires GateInv(token, phases, order) && t < |phases| && phases[t] == Acquired
    ensures GateInv(false, phases[t := Rejected], order)
  {
    assert forall u | 0 <= u < |phases| && u != t :: !Holds(phases[u]);
  }

  lemma AdmitKeepsGate(token: bool, phases: seq<Phase>, order: seq<nat>, t: nat)
    requires GateInv(token, phases, order) && t < |phases| && phases[t] == Acquired
    ensures GateInv(token, phases[t := Running(0)], order + [t])
  {
    assert Holds(phases[t]) && Holds(phases[t := Running(0)][t]);
    assert forall u | 0 <= u < |phases| && u != t :: !Holds(phases[u]);
    assert (order + [t])[|order|] == t;
    forall u: nat | u < |phases| ensures u in order + [t] <==> Admitted(phases[t := Running(0)][u]) {}
  }

  lemma WaitingKeeps(w: World, s: Step, db: Db, effects: Effects)
    requires Inv(w, db, effects) && Enabled(w, s) && (s.Cancel? || s.Acquire? || s.GiveUp?)
    ensures Inv(Next(w, s, effects), db, effects)
  {
    match s
    case Cancel(t) =>
    case Acquire(t) => AcquireKeepsGate(w.phases, w.order, t);
      SerialIgnoresOthers(w.order, w.phases, w.phases[t := Acquired], db, effects);
    case GiveUp(t) => GiveUpKeepsGate(w.token, w.phases, w.order, t);
      SerialIgnoresOthers(w.order, w.phases, w.phases[t := Rejected], db, effects);
  }

  lemma TurnAwayKeeps(w: World, t: nat, db: Db, effects: Effects)
    requires Inv(w, db, effects) && Enabled(w, Check(t)) && t in w.cancelled
    ensures Inv(Next(w, Check(t), effects), db, effects)
  {
    TurnAwayKeepsGate(w.token, w.phases, w.order, t);
    SerialIgnoresOthers(w.order, w.phases, w.phases[t := Rejected], db, effects);
  }

  lemma AdmitKeeps(w: World, t: nat, db: Db, effects: Effects)
    requires Inv(w, db, effects) && Enabled(w, Check(t)) && t !in w.cancelled
    ensures Inv(Next(w, Check(t), effects), db, effects)
  {
    AdmitKeepsGate(w.token, w.phases, w.order, t);
    SerialIgnoresOthers(w.order, w.phases, w.phases[t := Running(0)], db, effects);
    AdmittedWithNoRounds(w.order, w.phases[t := Running(0)], t, db, effects);
  }

  lemma CheckKeeps(w: World, t: nat, db: Db, effects: Effects)
    requires Inv(w, db, effects) && Enabled(w, Check(t))
    ensures Inv(Next(w, Check(t), effects), db, effects)
  {
    hide *;
    if t in w.cancelled { TurnAwayKeeps(w, t, db, effects); } else { AdmitKeeps(w, t, db, effects); }
  }

  lemma AdmittedWithNoRounds(order: seq<nat>, phases: seq<Phase>, t: nat, db: Db, effects: Effects)
    requires t < |phases| && RoundsDone(phases[t]) == 0 && forall i | 0 <= i < |order| :: order[i] < |phases|
    ensures Serial(order + [t], phases, db, effects) == Serial(order, phases, db, effects)
  {
    assert (order + [t])[..|order|] == order;
  }

  /** The holder was admitted last, so its rounds are the tail of the serial execution. */
  lemma HolderIsLast(w: World, t: nat, p: Phase, db: Db, effects: Effects)
    requires Inv(w, db, effects) && t < |w.phases| && (w.phases[t].Running? || w.phases[t].Computing?) && Admitted(p)
    ensures w.order != [] && w.order[|w.order| - 1] == t
    ensures forall u | 0 <= u < |w.phases| && u != t :: !Holds(w.phases[u])
    ensures var earlier := w.order[..|w.order| - 1];
            Serial(earlier, w.phases, db, effects) == Serial(earlier, w.phases[t := p], db, effects)
            && w.db == Alone(t, w.phases[t].rounds, Serial(earlier, w.phases, db, effects), effects)
            && Serial(w.order, w.phases[t := p], db, effects)
               == Alone(t, p.rounds, Serial(earlier, w.phases, db, effects), effects)
  {
    SerialIgnoresOthers(w.order[..|w.order| - 1], w.phases, w.phases[t := p], db, effects);
  }

  lemma RunningKeeps(w: World, s: Step, db: Db, effects: Effects)
    requires Inv(w, db, effects) && Enabled(w, s) && (s.Read? || s.Write? || s.Release?)
    ensures Inv(Next(w, s, effects), db, effects)
  {
    var w' := Next(w, s, effects);
    HolderIsLast(w, s.t, w'.phases[s.t], db, effects);
    if !s.Release? { assert Holds(w'.phases[s.t]); }
    hide Overwrite;
  }

  lemma StepKeeps(w: World, s: Step, db: Db, effects: Effects)
    requires Inv(w, db, effects) && Enabled(w, s)
    ensures Inv(Next(w, s, effects), db, effects)
  {
    if s.Cancel? || s.Acquire? || s.GiveUp? {
      WaitingKeeps(w, s, db, effects);
    } else if s.Check? {
      CheckKeeps(w, s.t, db, effects);
    } else {
      RunningKeeps(w, s, db, effects);
    }
  }

  // ---- any interleaving ----

  ghost predicate IsRun(w: World, steps: seq<Step>, effects: Effects)
    decreases |steps|
  {
    steps == [] || (Enabled(w, steps[0]) && IsRun(Next(w, steps[0], effects), steps[1..], effects))
  }

  function After(w: World, steps: seq<Step>, effects: Effects): World
    requires IsRun(w, steps, effects)
    decreases |steps|
  {
    if steps == [] then w else After(Next(w, steps[0], effects), steps[1..], effects)
  }

  lemma {:induction false} RunKeeps(w: World, steps: seq<Step>, db: Db, effects: Effects)
    requires Inv(w, db, effects) && IsRun(w, steps, effects)
    ensures Inv(After(w, steps, effects), db, effects)
    decreases |steps|
  {
    if steps != [] {
      StepKeeps(w, steps[0], db, effects);
      RunKeeps(Next(w, steps[0], effects), steps[1..], db, effects);
    }
  }

  /** After any interleaving the store is that of running the admitted tasks serially, in the order they
      acquired the gate, each for the rounds it completed. */
  lemma InterleavingsAreSerial(tasks: nat, db: Db, steps: seq<Step>, effects: Effects)
    requires IsRun(Start(tasks, db), steps, effects)
    ensures var w := After(Start(tasks, db), steps, effects);
            (forall i | 0 <= i < |w.order| :: w.order[i] < |w.phases|)
            && w.db == Serial(w.order, w.phases, db, effects)
  {
    StartHolds(tasks, db, effects);
    RunKeeps(Start(tasks, db), steps, db, effects);
  }

  /** At any moment at most one task holds the gate, and the slot is full exactly when one does. */
  lemma AtMostOneHolder(tasks: nat, db: Db, steps: seq<Step>, effects: Effects, t: nat, u: nat)
    requires IsRun(Start(tasks, db), steps, effects)
    ensures var w := After(Start(tasks, db), steps, effects);
            (t < |w.phases| && u < |w.phases| && Holds(w.phases[t]) && Holds(w.phases[u]) ==> t == u)
            && (w.token <==> exists h :: 0 <= h < |w.phases| && Holds(w.phases[h]))
  {
    StartHolds(tasks, db, effects);
    RunKeeps(Start(tasks, db), steps, db, effects);
  }

  /** A waiter cancelled after acquiring is turned away, leaves the gate free and the store alone. */
  lemma CancelledAfterAcquiring(w: World, t: nat, db: Db, effects: Effects)
    requires Inv(w, db, effects) && Enabled(w, Check(t)) && t in w.cancelled
    ensures var w' := Next(w, Check(t), effects);
            w'.phases[t] == Rejected && !w'.token && w'.db == w.db && w'.order == w.order
            && forall u | 0 <= u < |w'.phases| :: !Holds(w'.phases[u])
  {
    assert Holds(w.phases[t]);
  }

  /** A command is turned away only when its own context ended while it waited. */
  lemma {:induction false} OnlyTheCancelledAreRejected(w: World, steps: seq<Step>, effects: Effects, t: nat)
    requires IsRun(w, steps, effects) && t < |w.phases|
    requires w.phases[t] == Rejected ==> t in w.cancelled
    ensures var w' := After(w, steps, effects);
            t < |w'.phases| && (w'.phases[t] == Rejected ==> t in w'.cancelled)
    decreases |steps|
  {
    if steps != [] { OnlyTheCancelledAreRejected(Next(w, steps[0], effects), steps[1..], effects, t); }
  }

  predicate Ended(p: Phase) {
    p.Rejected? || p.Finished?
  }

  /** Nothing gets stuck: while a task has not ended, some task can step on, and no release ever blocks. */
  lemma GateNeverSticks(w: World, db: Db, effects: Effects, t: nat)
    requires Inv(w, db, effects) && t < |w.phases| && !Ended(w.phases[t])
    ensures exists s: Step :: Enabled(w, s) && !s.Cancel?
    ensures w.phases[t].Running? ==> Enabled(w, Release(t))
  {
    if w.token {
      var h :| 0 <= h < |w.phases| && Holds(w.phases[h]);
      if w.phases[h].Acquired? { assert Enabled(w, Check(h)); }
      else if w.phases[h].Running? { assert Enabled(w, Read(h)); }
      else { assert Enabled(w, Write(h)); }
    } else {
      assert !Holds(w.phases[t]);
      assert Enabled(w, Acquire(t));
    }
  }

  // ---- no increment is lost ----

  /** Whatever else it does, every round of task t adds amounts[t] to one field of one document: nothing,
      say, when it is about other documents. */
  ghost predicate Increments(effects: Effects, id: string, field: string, amounts: seq<int>) {
    forall t: nat, r: nat, db: Db | t < |amounts| && id in db && field in db[id] ::
      var after := Overwrite(db, effects(t, r, db));
      id in after && field in after[id] && after[id][field] == db[id][field] + amounts[t]
  }

  function Sum(order: seq<nat>, phases: seq<Phase>, amounts: seq<int>): int
    requires forall i | 0 <= i < |order| :: order[i] < |phases| && order[i] < |amounts|
    decreases |order|
  {
    if order == [] then 0
    else
      var last := order[|order| - 1];
      Sum(order[..|order| - 1], phases, amounts) + RoundsDone(phases[last]) * amounts[last]
  }

  lemma {:induction false} AloneIncrements(t: nat, rounds: nat, db: Db, effects: Effects, id: string, field: string,
                                           amounts: seq<int>)
    requires Increments(effects, id, field, amounts) && t < |amounts| && id in db && field in db[id]
    ensures var after := Alone(t, rounds, db, effects);
            id in after && field in after[id] && after[id][field] == db[id][field] + rounds * amounts[t]
    decreases rounds
  {
    if rounds > 0 {
      AloneIncrements(t, rounds - 1, db, effects, id, field, amounts);
      assert rounds * amounts[t] == (rounds - 1) * amounts[t] + amounts[t];
    }
  }

  lemma {:induction false} SerialIncrements(order: seq<nat>, phases: seq<Phase>, db: Db, effects: Effects,
                                            id: string, field: string, amounts: seq<int>)
    requires Increments(effects, id, field, amounts) && id in db && field in db[id]
    requires forall i | 0 <= i < |order| :: order[i] < |phases| && order[i] < |amounts|
    ensures var after := Serial(order, phases, db, effects);
            id in after && field in after[id] && after[id][field] == db[id][field] + Sum(order, phases, amounts)
    decreases |order|
  {
    if order != [] {
      var last := order[|order| - 1];
      SerialIncrements(order[..|order| - 1], phases, db, effects, id, field, amounts);
      AloneIncrements(last, RoundsDone(phases[last]), Serial(order[..|order| - 1], phases, db, effects), effects, id,
        field, amounts);
    }
  }

  /** When no task does anything to a field but increment it, its value after any interleaving is the
      initial one plus every completed increment of every admitted task. */
  lemma NoIncrementIsLost(db: Db, steps: seq<Step>, effects: Effects, id: string, field: string, amounts: seq<int>)
    requires Increments(effects, id, field, amounts) && id in db && field in db[id]
    requires IsRun(Start(|amounts|, db), steps, effects)
    ensures var w := After(Start(|amounts|, db), steps, effects);
            (forall i | 0 <= i < |w.order| :: w.order[i] < |w.phases| == |amounts|)
            && id in w.db && field in w.db[id]
            && w.db[id][field] == db[id][field] + Sum(w.order, w.phases, amounts)
  {
    InterleavingsAreSerial(|amounts|, db, steps, effects);
    SameTasks(Start(|amounts|, db), steps, effects);
    var w := After(Start(|amounts|, db), steps, effects);
    SerialIncrements(w.order, w.phases, db, effects, id, field, amounts);
  }

  lemma {:induction false} SameTasks(w: World, steps: seq<Step>, effects: Effects)
    requires IsRun(w, steps, effects)
    ensures |After(w, steps, effects).phases| == |w.phases|
    decreases |steps|
  {
    if steps != [] { SameTasks(Next(w, steps[0], effects), steps[1..], effects); }
  }

  // ---- which commands are gated ----

  datatype Handler = Plain(command: string) | Gated(inner: Handler)

  const MUTATIONS: seq<string> := [
    "update", "findAndModify", "findandmodify", "insert", "delete",
    "create", "drop", "dropDatabase", "renameCollection", "collMod",
    "createIndexes", "dropIndexes", "compact", "replSetInitiate",
    "createUser", "updateUser", "dropUser", "dropAllUsersFromDatabase"]

  class Commands {
    var handlers: map<string, Handler>

    constructor (handlers: map<string, Handler>)
      ensures this.handlers == handlers
    {
      this.handlers := handlers;
    }

    /** serializeMutationCommands: every mutation present is wrapped once, nothing else is touched. */
    method SerializeMutationCommands()
      modifies this
      ensures handlers == Wrapped(old(handlers), MUTATIONS)
    {
      ghost var before := handlers;
      assert handlers == Wrapped(before, MUTATIONS[..0]);
      hide Wrapped;
      for i := 0 to |MUTATIONS|
        invariant handlers.Keys == before.Keys && handlers == Wrapped(before, MUTATIONS[..i])
      {
        var name := MUTATIONS[i];
        assert MUTATIONS[..i + 1] == MUTATIONS[..i] + [name];
        assert name !in MUTATIONS[..i];
        WrapOne(before, MUTATIONS[..i], name);
        if name !in handlers { continue; }
        handlers := handlers[name := Gated(handlers[name])];
      }
      assert MUTATIONS[..|MUTATIONS|] == MUTATIONS;
    }
  }

  /** The handlers of the named commands behind the gate, the others as they are. */
  function Wrapped(handlers: map<string, Handler>, names: seq<string>): map<string, Handler> {
    map name | name in handlers :: if name in names then Gated(handlers[name]) else handlers[name]
  }

  lemma WrapOne(handlers: map<string, Handler>, names: seq<string>, name: string)
    requires name !in names
    ensures var before, after := Wrapped(handlers, names), Wrapped(handlers, names + [name]);
            after.Keys == before.Keys == handlers.Keys
            && after == if name in before then before[name := Gated(before[name])] else before
  {}

  /** The commands behind the gate are those that write, in every spelling the server answers to. */
  lemma WritesAreGated(handlers: map<string, Handler>, name: string)
    requires name in handlers
    ensures Wrapped(handlers, MUTATIONS)[name] ==
            if name in {"insert", "update", "delete", "findAndModify", "findandmodify",
                        "create", "collMod", "drop", "dropDatabase", "renameCollection",
                        "createIndexes", "dropIndexes", "compact", "replSetInitiate",
                        "createUser", "updateUser", "dropUser", "dropAllUsersFromDatabase"}
            then Gated(handlers[name]) else handlers[name]
  {}

  /** A change replaces or deletes the documents it names, and leaves the others. */
  lemma OverwritingChanges(db: Db, change: Change, id: string)
    ensures id in Overwrite(db, change) <==> if id in change then change[id].Some? else id in db
    ensures id in change && change[id].Some? ==> Overwrite(db, change)[id] == change[id].value
    ensures id !in change && id in db ==> Overwrite(db, change)[id] == db[id]
  {}
}
