/**
 The reporter of internal/eventlog/reporter.go as a state machine: any number of concurrent
 Add and Close calls serialised by a mutex, a one-slot wake channel, a timer, and one worker.
 Each step is one atomic action of the program (a lock, a channel operation or a call of the
 accumulator, which has a mutex of its own), and steps interleave in any way.
 */
module Reporter {
  import opened Optional
  import opened Usage

  const FLUSH_SIZE := 200

  /** The call of Add that holds the mutex: before the accumulator's Add, or before the wake signal. */
  datatype Adder = Free | Locked(e: Event) | Recorded

  datatype Timer = Off | Armed | Fired

  datatype Worker = Selecting | Woken | Flushing | LastFlush | Done

  /** A drain of the accumulator: the calls recorded since the previous one, and the rows it returned. */
  datatype Flush = Flush(window: seq<Event>, rows: seq<Row>)

  /** `window` and `accepted` are history: the calls recorded since the last drain, and since the start. */
  datatype World = World(
    pending: Pending, adder: Adder, closed: bool, wake: bool, timer: Timer, worker: Worker,
    window: seq<Event>, accepted: seq<Event>, flushes: seq<Flush>)

  datatype Step =
    | Lock(e: Event)   // Add takes the mutex; it returns at once when closed
    | Record           // r.pending.Add
    | Signal           // the non-blocking send, and the unlock
    | Close            // sets closed and closes the stop channel, once
    | Expire           // the timer fires
    | TakeStop         // the three cases of the worker's select
    | TakeWake
    | TakeTick
    | Measure          // r.pending.Size() after a wake
    | Drain(now: int)  // r.pending.Drain() of a flush

  predicate Enabled(w: World, s: Step) {
    match s
    case Lock(_) => w.adder.Free?
    case Record => w.adder.Locked?
    case Signal => w.adder.Recorded?
    case Close => w.adder.Free?
    case Expire => w.timer.Armed?
    case TakeStop => w.worker.Selecting? && w.closed
    case TakeWake => w.worker.Selecting? && w.wake
    case TakeTick => w.worker.Selecting? && w.timer.Fired?
    case Measure => w.worker.Woken?
    case Drain(_) => w.worker.Flushing? || w.worker.LastFlush?
  }

  /** What a drain of the pending rows returns. */
  function Rows(p: Pending, title: string, now: int): seq<Row> {
    if forall key | key in p.order :: key in p.rows then DrainedRows(p, title, now) else []
  }

  function Next(w: World, s: Step, limit: int, title: string): World
    requires Enabled(w, s)
  {
    match s
    case Lock(e) => if w.closed then w else w.(adder := Locked(e))
    case Record =>
      var e := w.adder.e;
      w.(adder := Recorded, pending := Added(w.pending, limit, e),
         window := w.window + [e], accepted := w.accepted + [e])
    case Signal => w.(adder := Free, wake := true)
    case Close => w.(closed := true)
    case Expire => w.(timer := Fired)
    case TakeStop => w.(worker := LastFlush)
    case TakeWake => w.(worker := Woken, wake := false)
    case TakeTick => w.(worker := Flushing, timer := Off)
    case Measure =>
      if |w.pending.rows| >= FLUSH_SIZE then w.(worker := Flushing)
      else w.(worker := Selecting, timer := if w.timer.Off? then Armed else w.timer)
    case Drain(now) =>
      w.(worker := if w.worker.Flushing? then Selecting else Done,
         flushes := w.flushes + [Flush(w.window, Rows(w.pending, title, now))],
         pending := EMPTY, window := [])
  }

  const START := World(EMPTY, Free, false, false, Off, Selecting, [], [], [])

  // ---- the invariant ----

  function Windows(flushes: seq<Flush>): seq<Event> {
    if flushes == [] then [] else Windows(flushes[..|flushes| - 1]) + flushes[|flushes| - 1].window
  }

  ghost predicate Faithful(f: Flush, limit: int, title: string) {
    exists now :: f.rows == Rows(Reached(limit, f.window), title, now)
  }

  /** What is recorded and not drained is pending, every drain was faithful, and no call got lost between. */
  ghost predicate Accounted(w: World, limit: int, title: string) {
    && w.pending == Reached(limit, w.window)
    && w.accepted == Windows(w.flushes) + w.window
    && forall f | f in w.flushes :: Faithful(f, limit, title)
  }

  /** The channels and the worker fit together: what waits will be noticed. */
  ghost predicate Noticed(w: World) {
    && (w.closed ==> w.adder.Free?)
    && (w.worker.LastFlush? || w.worker.Done? ==> w.closed)
    && (w.worker.Done? ==> w.window == [])
    && (w.window != [] ==> w.wake || !w.timer.Off? || w.adder.Recorded? || w.worker in {Woken, Flushing, LastFlush})
    && (w.worker.Selecting? && !w.wake && !w.adder.Recorded? ==> |w.pending.rows| < FLUSH_SIZE)
  }

  lemma StepKeeps(w: World, s: Step, limit: int, title: string)
    requires Accounted(w, limit, title) && Noticed(w) && Enabled(w, s)
    ensures Accounted(Next(w, s, limit, title), limit, title) && Noticed(Next(w, s, limit, title))
  {
    var w' := Next(w, s, limit, title);
    match s
    case Record =>
      assert w'.window[..|w.window|] == w.window;
      assert w'.accepted == Windows(w'.flushes) + w'.window;
    case Drain(now) =>
      var f := Flush(w.window, Rows(w.pending, title, now));
      assert w'.flushes[..|w.flushes|] == w.flushes;
      assert Faithful(f, limit, title);
      assert Windows(w'.flushes) + [] == Windows(w'.flushes);
    case _ =>
  }

  // ---- runs ----

  ghost predicate IsRun(w: World, steps: seq<Step>, limit: int, title: string)
    decreases |steps|
  {
    steps == [] || (Enabled(w, steps[0]) && IsRun(Next(w, steps[0], limit, title), steps[1..], limit, title))
  }

  function Finish(w: World, steps: seq<Step>, limit: int, title: string): World
    requires IsRun(w, steps, limit, title)
    decreases |steps|
  {
    if steps == [] then w else Finish(Next(w, steps[0], limit, title), steps[1..], limit, title)
  }

  lemma {:induction false} RunKeeps(w: World, steps: seq<Step>, limit: int, title: string)
    requires Accounted(w, limit, title) && Noticed(w) && IsRun(w, steps, limit, title)
    ensures Accounted(Finish(w, steps, limit, title), limit, title) && Noticed(Finish(w, steps, limit, title))
    decreases |steps|
  {
    if steps != [] {
      StepKeeps(w, steps[0], limit, title);
      RunKeeps(Next(w, steps[0], limit, title), steps[1..], limit, title);
    }
  }

  /** The counts of all rows drained so far. */
  function Reported(flushes: seq<Flush>): int {
    if flushes == [] then 0 else Reported(flushes[..|flushes| - 1]) + Total(flushes[|flushes| - 1].rows)
  }

  lemma {:induction false} NamedOfBoth(xs: seq<Event>, ys: seq<Event>)
    ensures Named(xs + ys) == Named(xs) + Named(ys)
    decreases |ys|
  {
    if ys == [] {
      assert xs + ys == xs;
    } else {
      NamedOfBoth(xs, ys[..|ys| - 1]);
      assert (xs + ys)[..|xs + ys| - 1] == xs + ys[..|ys| - 1];
    }
  }

  lemma {:induction false} ReportedAddsUp(flushes: seq<Flush>, limit: int, title: string)
    requires forall f | f in flushes :: Faithful(f, limit, title)
    ensures Reported(flushes) == Named(Windows(flushes))
  {
    if flushes != [] {
      var before, f := flushes[..|flushes| - 1], flushes[|flushes| - 1];
      assert flushes[|flushes| - 1] in flushes && Faithful(f, limit, title);
      ReportedAddsUp(before, limit, title);
      NamedOfBoth(Windows(before), f.window);
      var now :| f.rows == Rows(Reached(limit, f.window), title, now);
      DrainedAddUp(limit, f.window, title, now);
    }
  }

  /** At any time the drained windows followed by the undrained one are the accepted calls, each once and in
      order; each drain returned the rows of its own window; and the counts add up. */
  lemma EveryCallIsDrainedOnce(steps: seq<Step>, limit: int, title: string)
    requires IsRun(START, steps, limit, title)
    ensures var w := Finish(START, steps, limit, title);
            && w.accepted == Windows(w.flushes) + w.window
            && (forall f | f in w.flushes :: Faithful(f, limit, title))
            && Reported(w.flushes) + Named(w.window) == Named(w.accepted)
  {
    RunKeeps(START, steps, limit, title);
    var w := Finish(START, steps, limit, title);
    ReportedAddsUp(w.flushes, limit, title);
    NamedOfBoth(Windows(w.flushes), w.window);
  }

  /** When the worker is done, so that Close returns, everything accepted was drained. */
  lemma CloseLeavesNothing(steps: seq<Step>, limit: int, title: string)
    requires IsRun(START, steps, limit, title) && Finish(START, steps, limit, title).worker.Done?
    ensures var w := Finish(START, steps, limit, title);
            w.accepted == Windows(w.flushes) && Reported(w.flushes) == Named(w.accepted) && w.pending == EMPTY
              && w.adder.Free?
  {
    EveryCallIsDrainedOnce(steps, limit, title);
    RunKeeps(START, steps, limit, title);
  }

  /** No wake-up is lost: a worker in its select, with something recorded and no Add in progress, has a wake
      token, a running timer or a tick to come. */
  lemma NoLostWakeUp(steps: seq<Step>, limit: int, title: string)
    requires IsRun(START, steps, limit, title)
    ensures var w := Finish(START, steps, limit, title);
            w.worker.Selecting? && w.adder.Free? && w.window != [] ==> w.wake || w.timer.Armed? || w.timer.Fired?
  {
    RunKeeps(START, steps, limit, title);
  }

  /** A worker at rest in its select, with no wake token and no Add in progress, has fewer rows waiting than
      make it flush at once. */
  lemma BacklogIsBounded(steps: seq<Step>, limit: int, title: string)
    requires IsRun(START, steps, limit, title)
    ensures var w := Finish(START, steps, limit, title);
            w.worker.Selecting? && w.adder.Free? && !w.wake ==> |w.pending.rows| < 200
  {
    RunKeeps(START, steps, limit, title);
  }

  /** A reporter is closed for good by the first Close of a run, and accepts nothing from then on. */
  lemma {:induction false} ClosingIsForGood(w: World, steps: seq<Step>, limit: int, title: string)
    requires IsRun(w, steps, limit, title)
    ensures w.closed || Close in steps ==> Finish(w, steps, limit, title).closed
    ensures w.closed && !w.adder.Locked? ==> Finish(w, steps, limit, title).accepted == w.accepted
    decreases |steps|
  {
    if steps != [] {
      ClosingIsForGood(Next(w, steps[0], limit, title), steps[1..], limit, title);
      assert forall s :: s in steps ==> s == steps[0] || s in steps[1..];
    }
  }

  /** After a wake the worker drains at once exactly when 200 rows or more wait; otherwise a timer is set, or left
      to run, and it goes back to its select. */
  lemma FlushesExactlyWhen(w: World, limit: int, title: string)
    requires w.worker.Woken?
    ensures var w' := Next(w, Measure, limit, title);
            && (w'.worker.Flushing? <==> |w.pending.rows| >= 200)
            && (|w.pending.rows| < 200 ==>
                  w'.worker.Selecting? && w'.timer == if w.timer.Off? then Armed else w.timer)
            && w' == w.(worker := w'.worker, timer := w'.timer) && (w'.worker.Flushing? ==> w'.timer == w.timer)
  {}

  // ---- Close returns ----

  predicate OfWorker(s: Step) {
    s.TakeStop? || s.TakeWake? || s.TakeTick? || s.Measure? || s.Drain?
  }

  /** How many steps of the worker and its timer can still follow a close, at most. */
  function Remaining(w: World): nat {
    (if w.wake then 5 else 0)
    + (match w.timer case Off => 0 case Armed => 3 case Fired => 2)
    + (match w.worker case Done => 0 case LastFlush => 1 case Selecting => 2 case Flushing => 3 case Woken => 6)
  }

  /** After a close nothing is accepted, every step of the worker or timer brings it nearer to its end, and until
      then it always has a step; so Close returns after at most 14 of them, whatever calls come in between. */
  lemma CloseReturns(w: World, s: Step, limit: int, title: string)
    requires Noticed(w) && w.closed
    ensures Remaining(w) <= 14
    ensures Enabled(w, s) ==>
              var w' := Next(w, s, limit, title);
              w'.closed && w'.accepted == w.accepted
              && if OfWorker(s) || s.Expire? then Remaining(w') < Remaining(w) else w' == w
    ensures !w.worker.Done? ==> exists s' :: OfWorker(s') && Enabled(w, s')
  {
    if w.worker.Selecting? { assert Enabled(w, TakeStop) && OfWorker(TakeStop); }
    if w.worker.Woken? { assert Enabled(w, Measure) && OfWorker(Measure); }
    if w.worker.Flushing? || w.worker.LastFlush? { assert Enabled(w, Drain(0)) && OfWorker(Drain(0)); }
  }
}
