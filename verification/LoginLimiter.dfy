/**
 The login limiter of internal/api/api.go: begin and finish on a bounded table of
 attempts per client key, with a failure window and a lockout. Times are integers on the
 service's clock; the zero time of `until` is None.
 */
module LoginLimiter {
  import opened Optional

  const MAX_ENTRIES := 10000

  datatype Options = Options(maxFailures: int, window: int, lockout: int)

  /** The options after New has replaced unset and negative ones. */
  type Limits = o: Options | o.maxFailures >= 1 && o.window >= 1 && o.lockout >= 1 witness Options(10, 60000, 60000)

  function Normalized(o: Options): Limits {
    Options(if o.maxFailures <= 0 then 10 else o.maxFailures,
            if o.window <= 0 then 60000 else o.window,
            if o.lockout <= 0 then 60000 else o.lockout)
  }

  datatype Attempt = Attempt(failures: nat, since: int, until: Option<int>, busy: bool)

  type Table = map<string, Attempt>

  predicate Locked(a: Attempt, now: int) {
    a.until.Some? && now < a.until.value
  }

  /** The condition under which begin drops an entry. */
  predicate Expired(a: Attempt, now: int, limits: Limits) {
    !a.busy && (a.until == None || now > a.until.value) && now - a.since > limits.window
  }

  function Sweep(attempts: Table, now: int, limits: Limits): Table {
    map k | k in attempts && !Expired(attempts[k], now, limits) :: attempts[k]
  }

  /** An entry whose lockout has run out starts over. */
  function Refreshed(a: Attempt, now: int): Attempt {
    if a.until.Some? && now >= a.until.value then Attempt(0, now, None, a.busy) else a
  }

  function BeginOn(swept: Table, key: string, now: int): (Table, bool) {
    if key !in swept && |swept| >= MAX_ENTRIES then (swept, false)
    else
      var a := Refreshed(if key in swept then swept[key] else Attempt(0, now, None, false), now);
      if a.busy || Locked(a, now) then (swept[key := a], false) else (swept[key := a.(busy := true)], true)
  }

  function Begun(attempts: Table, key: string, now: int, limits: Limits): (Table, bool) {
    BeginOn(Sweep(attempts, now, limits), key, now)
  }

  function Finished(attempts: Table, key: string, success: bool, now: int, limits: Limits): Table {
    if key !in attempts then attempts
    else if success then attempts - {key}
    else
      var a := attempts[key];
      attempts[key := Attempt(a.failures + 1, a.since,
                              if a.failures + 1 >= limits.maxFailures then Some(now + limits.lockout) else a.until,
                              false)]
  }

  // ---- the code ----

  class Service {
    const limits: Limits
    var attempts: Table

    constructor (options: Options)
      ensures limits == Normalized(options) && attempts == map[]
    {
      limits, attempts := Normalized(options), map[];
    }

    method Begin(key: string, now: int) returns (ok: bool)
      modifies this
      ensures (attempts, ok) == Begun(old(attempts), key, now, limits)
    {
      ghost var before := attempts;
      var rest := attempts.Keys;
      while rest != {}
        invariant rest <= attempts.Keys
        invariant attempts == map k | k in before && (k in rest || !Expired(before[k], now, limits)) :: before[k]
        decreases rest
      {
        var k :| k in rest;
        var a := attempts[k];
        if !a.busy && (a.until == None || now > a.until.value) && now - a.since > limits.window {
          attempts := attempts - {k};
        }
        rest := rest - {k};
      }
      ghost var swept := Sweep(before, now, limits);
      assert attempts == swept;
      if key !in attempts {
        if |attempts| >= MAX_ENTRIES { return false; }
        attempts := attempts[key := Attempt(0, now, None, false)];
      }
      var a := attempts[key];
      if a.until.Some? && now >= a.until.value {
        a := a.(failures := 0, since := now, until := None);
      }
      attempts := attempts[key := a];
      assert attempts == swept[key := a];
      if a.busy || Locked(a, now) { return false; }
      attempts := attempts[key := a.(busy := true)];
      assert attempts == swept[key := a.(busy := true)];
      return true;
    }

    method Finish(key: string, success: bool, now: int)
      modifies this
      ensures attempts == Finished(old(attempts), key, success, now, limits)
    {
      if key !in attempts { return; }
      if success {
        attempts := attempts - {key};
        return;
      }
      var a := attempts[key];
      a := a.(busy := false);
      a := a.(failures := a.failures + 1);
      if a.failures >= limits.maxFailures {
        a := a.(until := Some(now + limits.lockout));
      }
      attempts := attempts[key := a];
    }
  }

  // ---- runs ----

  /** A step of a run: a login begins, or one that was let through finishes. */
  datatype Step = BeginStep(key: string, now: int) | FinishStep(key: string, success: bool, now: int)

  /** The table, the logins let through and not yet finished, the clock, and for every key the times
      of the failures recorded since its last success. */
  datatype World = World(attempts: Table, open: multiset<string>, clock: int, failed: map<string, seq<int>>)

  function FailuresOf(w: World, k: string): seq<int> {
    if k in w.failed then w.failed[k] else []
  }

  /** Time does not run backwards, and only a login that was let through finishes. */
  predicate Enabled(w: World, e: Step) {
    w.clock <= e.now && (e.FinishStep? ==> e.key in w.open)
  }

  function Next(w: World, e: Step, limits: Limits): World {
    match e
    case BeginStep(key, now) =>
      var (table, ok) := Begun(w.attempts, key, now, limits);
      World(table, if ok then w.open + multiset{key} else w.open, now, w.failed)
    case FinishStep(key, success, now) =>
      World(Finished(w.attempts, key, success, now, limits), w.open - multiset{key}, now,
            w.failed[key := if success then [] else FailuresOf(w, key) + [now]])
  }

  ghost predicate IsRun(w: World, steps: seq<Step>, limits: Limits)
    decreases |steps|
  {
    steps == [] || (Enabled(w, steps[0]) && IsRun(Next(w, steps[0], limits), steps[1..], limits))
  }

  function After(w: World, steps: seq<Step>, limits: Limits): World
    decreases |steps|
  {
    if steps == [] then w else After(Next(w, steps[0], limits), steps[1..], limits)
  }

  function Start(clock: int): World {
    World(map[], multiset{}, clock, map[])
  }

  // ---- counting failures in an interval ----

  /** How many of the times lie in the half-open interval from t of length span. */
  function Within(times: seq<int>, t: int, span: int): nat
    decreases |times|
  {
    if times == [] then 0
    else Within(times[..|times| - 1], t, span) + if t <= times[|times| - 1] < t + span then 1 else 0
  }

  lemma {:induction false} WithinAtMostAll(times: seq<int>, t: int, span: int)
    ensures Within(times, t, span) <= |times|
    decreases |times|
  {
    if times != [] { WithinAtMostAll(times[..|times| - 1], t, span); }
  }

  lemma {:induction false} WithinConcat(a: seq<int>, b: seq<int>, t: int, span: int)
    ensures Within(a + b, t, span) == Within(a, t, span) + Within(b, t, span)
    decreases |b|
  {
    if b == [] {
      assert a + b == a;
    } else {
      WithinConcat(a, b[..|b| - 1], t, span);
      assert (a + b)[..|a + b| - 1] == a + b[..|b| - 1];
    }
  }

  lemma {:induction false} NoneWithin(times: seq<int>, t: int, span: int)
    requires forall i | 0 <= i < |times| :: times[i] < t
    ensures Within(times, t, span) == 0
    decreases |times|
  {
    if times != [] { NoneWithin(times[..|times| - 1], t, span); }
  }

  function Span(limits: Limits): int {
    if limits.window < limits.lockout then limits.window else limits.lockout
  }

  /** How many failures may precede a new entry of their key within its interval: the counted ones of an entry
      that expired, all but one of which came before it did. */
  function Carried(limits: Limits): nat {
    if limits.maxFailures == 1 then 0 else if Span(limits) == 1 then 1 else limits.maxFailures - 1
  }

  /** The most failures of one key in an interval as long as the shorter of window and lockout. */
  function MostWithin(limits: Limits): (most: nat)
    ensures limits.maxFailures <= most <= 2 * limits.maxFailures - 1
    ensures Span(limits) > 1 || limits.maxFailures <= 2 ==> most == 2 * limits.maxFailures - 1
  {
    limits.maxFailures + Carried(limits)
  }

  // ---- the invariant of one key ----

  ghost predicate AllUpTo(times: seq<int>, bound: int) {
    forall i | 0 <= i < |times| :: times[i] <= bound
  }

  /** Any interval that reaches past `moment` holds no more failures than can be carried over. */
  ghost predicate QuietAfter(times: seq<int>, moment: int, limits: Limits) {
    forall t :: t + Span(limits) > moment ==> Within(times, t, Span(limits)) <= Carried(limits)
  }

  ghost predicate Bounded(times: seq<int>, limits: Limits) {
    forall t :: Within(times, t, Span(limits)) <= MostWithin(limits)
  }

  /** The failures counted in the entry, and those of earlier entries and lockouts of the key. */
  function Current(a: Attempt, times: seq<int>): seq<int>
    requires a.failures <= |times|
  {
    times[|times| - a.failures..]
  }

  function Earlier(a: Attempt, times: seq<int>): seq<int>
    requires a.failures <= |times|
  {
    times[..|times| - a.failures]
  }

  /** Once its window is over an entry counts at most the failure of a login begun before. */
  ghost predicate OneLate(a: Attempt, times: seq<int>, limits: Limits)
    requires a.failures <= |times|
  {
    forall t :: t > a.since + limits.window ==> Within(Current(a, times), t, 1) <= if a.busy then 0 else 1
  }

  ghost predicate EntryFits(a: Attempt, times: seq<int>, clock: int, limits: Limits) {
    && a.since <= clock && a.failures <= limits.maxFailures && a.failures <= |times|
    && AllUpTo(Earlier(a, times), a.since) && QuietAfter(Earlier(a, times), a.since, limits)
    && OneLate(a, times, limits)
    && (a.until.Some? <==> a.failures == limits.maxFailures)
    && (a.until.Some? ==> AllUpTo(times, a.until.value - limits.lockout))
    && (a.busy ==> a.until == None)
  }

  /** What holds of one key at any moment of any run. */
  ghost predicate KeyFits(w: World, k: string, limits: Limits) {
    && AllUpTo(FailuresOf(w, k), w.clock) && Bounded(FailuresOf(w, k), limits)
    && (k in w.attempts ==> EntryFits(w.attempts[k], FailuresOf(w, k), w.clock, limits))
    && (k !in w.attempts ==> QuietAfter(FailuresOf(w, k), w.clock, limits))
    && w.open[k] == if k in w.attempts && w.attempts[k].busy then 1 else 0
  }

  ghost predicate Fits(w: World, limits: Limits) {
    && |w.attempts| <= MAX_ENTRIES
    && forall k :: KeyFits(w, k, limits)
  }

  lemma NothingYet(clock: int, limits: Limits)
    ensures Fits(Start(clock), limits)
  {}

  // ---- begin ----

  /** Dropping an expired entry leaves its key quiet. */
  lemma ExpiredIsQuiet(a: Attempt, times: seq<int>, clock: int, now: int, limits: Limits)
    requires EntryFits(a, times, clock, limits) && clock <= now && Expired(a, now, limits)
    ensures QuietAfter(times, now, limits)
  {
    forall t | t + Span(limits) > now ensures Within(times, t, Span(limits)) <= Carried(limits) {
      if a.until.Some? {
        NoneWithin(times, t, Span(limits));
      } else {
        assert times == Earlier(a, times) + Current(a, times);
        WithinConcat(Earlier(a, times), Current(a, times), t, Span(limits));
        NoneWithin(Earlier(a, times), t, Span(limits));
        WithinAtMostAll(Current(a, times), t, Span(limits));
      }
    }
  }

  /** A lockout that has run out leaves the key quiet, so that its entry may start over. */
  lemma RefreshedFits(a: Attempt, times: seq<int>, clock: int, now: int, limits: Limits)
    requires EntryFits(a, times, clock, limits) && clock <= now && AllUpTo(times, clock)
    ensures EntryFits(Refreshed(a, now), times, now, limits) && Refreshed(a, now).busy == a.busy
  {
    var r := Refreshed(a, now);
    if r != a {
      assert Earlier(r, times) == times;
      forall t | t + Span(limits) > now ensures Within(times, t, Span(limits)) <= Carried(limits) {
        NoneWithin(times, t, Span(limits));
      }
    }
  }

  lemma FreshFits(times: seq<int>, clock: int, now: int, limits: Limits)
    requires clock <= now && AllUpTo(times, clock) && QuietAfter(times, clock, limits)
    ensures EntryFits(Attempt(0, now, None, false), times, now, limits)
  {
    assert Earlier(Attempt(0, now, None, false), times) == times;
  }

  lemma BusyFits(a: Attempt, times: seq<int>, now: int, limits: Limits)
    requires EntryFits(a, times, now, limits) && a.until == None && !a.busy
    requires AllUpTo(times, now) && now - a.since <= limits.window
    ensures EntryFits(a.(busy := true), times, now, limits)
  {
    var b := a.(busy := true);
    assert Earlier(b, times) == Earlier(a, times);
    forall t | t > a.since + limits.window ensures Within(Current(b, times), t, 1) == 0 {
      NoneWithin(Current(b, times), t, 1);
    }
  }

  /** The entry of any key after the sweep of a begin. */
  lemma SweepFits(w: World, k: string, now: int, limits: Limits)
    requires KeyFits(w, k, limits) && w.clock <= now
    ensures KeyFits(World(Sweep(w.attempts, now, limits), w.open, now, w.failed), k, limits)
  {
    if k in w.attempts && Expired(w.attempts[k], now, limits) {
      ExpiredIsQuiet(w.attempts[k], FailuresOf(w, k), w.clock, now, limits);
    }
  }

  lemma BeginFits(w: World, key: string, now: int, k: string, limits: Limits)
    requires KeyFits(w, k, limits) && w.clock <= now
    ensures KeyFits(Next(w, BeginStep(key, now), limits), k, limits)
  {
    SweepFits(w, k, now, limits);
    var swept := Sweep(w.attempts, now, limits);
    var times := FailuresOf(w, k);
    if k == key {
      if k in swept {
        RefreshedFits(swept[k], times, now, now, limits);
        var a := Refreshed(swept[k], now);
        if !a.busy && !Locked(a, now) { BusyFits(a, times, now, limits); }
      } else {
        FreshFits(times, now, now, limits);
        BusyFits(Attempt(0, now, None, false), times, now, limits);
      }
    }
    hide EntryFits, QuietAfter, Bounded, AllUpTo, Sweep, Refreshed;
  }

  lemma {:induction false} SmallerTable(a: Table, b: Table)
    requires forall k | k in a :: k in b && a[k] == b[k]
    ensures |a| <= |b|
    decreases |a|
  {
    if k :| k in a {
      SmallerTable(a - {k}, b - {k});
      assert a == (a - {k})[k := a[k]] && b == (b - {k})[k := b[k]];
    }
  }

  lemma BeginKeepsSize(attempts: Table, key: string, now: int, limits: Limits)
    requires |attempts| <= MAX_ENTRIES
    ensures |Begun(attempts, key, now, limits).0| <= MAX_ENTRIES
  {
    SmallerTable(Sweep(attempts, now, limits), attempts);
  }

  // ---- finish ----

  /** One more failure: at most M - 1 before the entry and at most M in it lie in any interval. */
  lemma FailureStaysBounded(a: Attempt, times: seq<int>, clock: int, now: int, limits: Limits)
    requires EntryFits(a, times, clock, limits) && a.until == None && clock <= now && Bounded(times, limits)
    ensures Bounded(times + [now], limits)
  {
    forall t ensures Within(times + [now], t, Span(limits)) <= MostWithin(limits) {
      WithinConcat(times, [now], t, Span(limits));
      if t <= now < t + Span(limits) {
        assert times == Earlier(a, times) + Current(a, times);
        WithinConcat(Earlier(a, times), Current(a, times), t, Span(limits));
        WithinAtMostAll(Current(a, times), t, Span(limits));
      }
    }
  }

  lemma FailureFits(a: Attempt, times: seq<int>, clock: int, now: int, limits: Limits)
    requires EntryFits(a, times, clock, limits) && a.until == None && a.busy && clock <= now && AllUpTo(times, clock)
    ensures var until := if a.failures + 1 >= limits.maxFailures then Some(now + limits.lockout) else None;
            EntryFits(Attempt(a.failures + 1, a.since, until, false), times + [now], now, limits)
  {
    var b := Attempt(a.failures + 1, a.since, None, false);
    assert Earlier(b, times + [now]) == Earlier(a, times);
    assert Current(b, times + [now]) == Current(a, times) + [now];
    forall t | t > a.since + limits.window ensures Within(Current(b, times + [now]), t, 1) <= 1 {
      WithinConcat(Current(a, times), [now], t, 1);
    }
  }

  /** A login under way has an entry that is not locked. */
  lemma OpenEntry(w: World, key: string, limits: Limits)
    requires KeyFits(w, key, limits) && key in w.open
    ensures key in w.attempts && w.attempts[key].busy && w.attempts[key].until == None
    ensures EntryFits(w.attempts[key], FailuresOf(w, key), w.clock, limits)
  {}

  lemma LaterFits(w: World, k: string, now: int, limits: Limits)
    requires KeyFits(w, k, limits) && w.clock <= now
    ensures KeyFits(w.(clock := now), k, limits)
  {}

  lemma NoFailureFits(now: int, limits: Limits)
    ensures AllUpTo([], now) && Bounded([], limits) && QuietAfter([], now, limits)
  {}

  lemma FailureIsLatest(times: seq<int>, clock: int, now: int)
    requires AllUpTo(times, clock) && clock <= now
    ensures AllUpTo(times + [now], now)
  {}

  lemma FinishedFailing(w: World, key: string, now: int, limits: Limits)
    requires KeyFits(w, key, limits) && w.clock <= now && key in w.open
    ensures KeyFits(Next(w, FinishStep(key, false, now), limits), key, limits)
  {
    OpenEntry(w, key, limits);
    hide EntryFits, AllUpTo, Bounded, QuietAfter;
    var a, times := w.attempts[key], FailuresOf(w, key);
    FailureFits(a, times, w.clock, now, limits);
    FailureStaysBounded(a, times, w.clock, now, limits);
    FailureIsLatest(times, w.clock, now);
  }

  lemma FinishedInSuccess(w: World, key: string, now: int, limits: Limits)
    requires KeyFits(w, key, limits) && w.clock <= now && key in w.open
    ensures KeyFits(Next(w, FinishStep(key, true, now), limits), key, limits)
  {
    hide EntryFits, AllUpTo, Bounded, QuietAfter;
    NoFailureFits(now, limits);
  }

  lemma FinishFits(w: World, key: string, success: bool, now: int, k: string, limits: Limits)
    requires KeyFits(w, k, limits) && KeyFits(w, key, limits) && w.clock <= now && key in w.open
    ensures KeyFits(Next(w, FinishStep(key, success, now), limits), k, limits)
  {
    hide EntryFits, AllUpTo, Bounded, QuietAfter;
    if k != key {
      LaterFits(w, k, now, limits);
    } else if success {
      FinishedInSuccess(w, key, now, limits);
    } else {
      FinishedFailing(w, key, now, limits);
    }
  }

  // ---- whole runs ----

  lemma StepFits(w: World, e: Step, limits: Limits)
    requires Fits(w, limits) && Enabled(w, e)
    ensures Fits(Next(w, e, limits), limits)
  {
    match e
    case BeginStep(key, now) =>
      BeginKeepsSize(w.attempts, key, now, limits);
      forall k ensures KeyFits(Next(w, e, limits), k, limits) { BeginFits(w, key, now, k, limits); }
    case FinishStep(key, success, now) =>
      assert KeyFits(w, key, limits);
      SmallerTable(w.attempts - {key}, w.attempts);
      forall k ensures KeyFits(Next(w, e, limits), k, limits) { FinishFits(w, key, success, now, k, limits); }
  }

  lemma {:induction false} RunFits(w: World, steps: seq<Step>, limits: Limits)
    requires Fits(w, limits) && IsRun(w, steps, limits)
    ensures Fits(After(w, steps, limits), limits)
    decreases |steps|
  {
    if steps != [] {
      StepFits(w, steps[0], limits);
      RunFits(Next(w, steps[0], limits), steps[1..], limits);
    }
  }

  /** In any run, for any key, every half-open interval as long as the shorter of window and lockout
      holds at most 2M - 1 of the failures recorded since the key's last success, and at most M + 1
      when it is a single tick. */
  lemma FailureRateIsBounded(clock: int, steps: seq<Step>, limits: Limits, k: string, t: int)
    requires IsRun(Start(clock), steps, limits)
    ensures Within(FailuresOf(After(Start(clock), steps, limits), k), t, Span(limits)) <= MostWithin(limits)
  {
    NothingYet(clock, limits);
    RunFits(Start(clock), steps, limits);
    assert KeyFits(After(Start(clock), steps, limits), k, limits);
  }

  /** In any run at most one login per key is under way, none while the key is locked out, and the
      table is bounded. */
  lemma AtMostOneLoginPerKey(clock: int, steps: seq<Step>, limits: Limits, k: string)
    requires IsRun(Start(clock), steps, limits)
    ensures var w := After(Start(clock), steps, limits);
            w.open[k] <= 1 && |w.attempts| <= 10000
            && (w.open[k] == 1 <==> k in w.attempts && w.attempts[k].busy)
            && (w.open[k] == 1 ==> w.attempts[k].until == None)
  {
    NothingYet(clock, limits);
    RunFits(Start(clock), steps, limits);
    assert KeyFits(After(Start(clock), steps, limits), k, limits);
  }

  /** A lockout is never dropped early: until it runs out every step keeps it, and begin refuses the key. */
  lemma LockoutIsKept(w: World, e: Step, limits: Limits, k: string)
    requires Fits(w, limits) && Enabled(w, e)
    requires k in w.attempts && Locked(w.attempts[k], e.now)
    ensures k in Next(w, e, limits).attempts && Next(w, e, limits).attempts[k].until == w.attempts[k].until
    ensures e.BeginStep? && e.key == k ==> Next(w, e, limits).open == w.open
  {
    assert KeyFits(w, k, limits);
  }

  /** The failure that reaches the limit starts a lockout of full length. */
  lemma LimitStartsLockout(w: World, key: string, now: int, limits: Limits)
    requires Fits(w, limits) && Enabled(w, FinishStep(key, false, now))
    requires key in w.attempts && w.attempts[key].failures == limits.maxFailures - 1
    ensures var a := Next(w, FinishStep(key, false, now), limits).attempts[key];
            a.until == Some(now + limits.lockout)
              && forall later | now <= later < now + limits.lockout :: Locked(a, later)
  {
    assert KeyFits(w, key, limits);
  }

  // ---- the bound is exact ----

  /** An entry is kept while its login is under way, its lockout runs, or its window is open. */
  predicate Kept(a: Attempt, now: int, limits: Limits) {
    a.busy || (a.until.Some? && now <= a.until.value) || now - a.since <= limits.window
  }

  lemma SweepKeeps(attempts: Table, now: int, limits: Limits)
    ensures Sweep(attempts, now, limits).Keys == set k | k in attempts && Kept(attempts[k], now, limits)
    ensures forall k | k in Sweep(attempts, now, limits) :: Sweep(attempts, now, limits)[k] == attempts[k]
  {}

  /** A login is let through exactly when no other of its key is under way and its lockout, if any, has run out,
      or, for a key without an entry that is kept, when fewer than 10000 entries are; a lockout that has run out is
      forgotten, and other entries stay as they are. */
  lemma LetThroughExactlyWhen(attempts: Table, key: string, now: int, limits: Limits)
    ensures var kept := key in attempts && Kept(attempts[key], now, limits);
            var (table, ok) := Begun(attempts, key, now, limits);
            && (ok <==> if kept
                        then !attempts[key].busy && (attempts[key].until.Some? ==> now >= attempts[key].until.value)
                        else |set k | k in attempts && Kept(attempts[k], now, limits)| < 10000)
            && (ok ==> key in table)
            && (ok && (!kept || attempts[key].until.Some?) ==> table[key] == Attempt(0, now, None, true))
            && (ok && kept && attempts[key].until == None ==> table[key] == attempts[key].(busy := true))
            && (!ok ==> (key in table <==> kept)
                        && (key in table ==>
                              table[key] == if attempts[key].until.Some? && now >= attempts[key].until.value
                                            then Attempt(0, now, None, attempts[key].busy) else attempts[key]))
            && forall k | k != key :: (k in table <==> k in attempts && Kept(attempts[k], now, limits))
                                      && (k in table ==> table[k] == attempts[k])
  {
    SweepKeeps(attempts, now, limits);
    var swept := Sweep(attempts, now, limits);
    assert |swept| == |swept.Keys|;
    hide Sweep, Kept;
  }

  /** A finished login leaves no entry when it succeeded; otherwise the failure is counted, and when it reaches the
      limit the key is locked from then on for the full length. */
  lemma FinishedExactly(attempts: Table, key: string, success: bool, now: int, limits: Limits)
    requires key in attempts
    ensures var table := Finished(attempts, key, success, now, limits);
            && (key in table <==> !success)
            && (!success ==>
                  && table[key].failures == attempts[key].failures + 1 && table[key].since == attempts[key].since
                  && !table[key].busy
                  && table[key].until == if attempts[key].failures + 1 >= limits.maxFailures
                                         then Some(now + limits.lockout)
                                         else attempts[key].until)
            && forall k | k != key :: (k in table <==> k in attempts) && (k in table ==> table[k] == attempts[k])
  {}

  /** Options that are unset or negative are ten failures, a minute and a minute. */
  lemma UnsetOptionsAre(o: Options)
    ensures Normalized(o) == Options(if o.maxFailures > 0 then o.maxFailures else 10,
                                     if o.window > 0 then o.window else 60 * 1000,
                                     if o.lockout > 0 then o.lockout else 60 * 1000)
  {}

  lemma NoSteps(w: World, limits: Limits)
    ensures IsRun(w, [], limits) && After(w, [], limits) == w
  {}

  lemma RunHead(w: World, steps: seq<Step>, limits: Limits)
    requires steps != []
    ensures var rest := Next(w, steps[0], limits);
            (IsRun(w, steps, limits) <==> Enabled(w, steps[0]) && IsRun(rest, steps[1..], limits))
            && After(w, steps, limits) == After(rest, steps[1..], limits)
  {
    hide Next, Enabled;
  }

  lemma {:induction false} RunConcat(w: World, a: seq<Step>, b: seq<Step>, limits: Limits)
    requires IsRun(w, a, limits) && IsRun(After(w, a, limits), b, limits)
    ensures IsRun(w, a + b, limits) && After(w, a + b, limits) == After(After(w, a, limits), b, limits)
    decreases |a|
  {
    hide *;
    if a == [] {
      NoSteps(w, limits);
      assert a + b == b;
    } else {
      RunHead(w, a, limits);
      RunConcat(Next(w, a[0], limits), a[1..], b, limits);
      assert (a + b)[0] == a[0] && (a + b)[1..] == a[1..] + b;
      RunHead(w, a + b, limits);
    }
  }

  lemma TwoSteps(w: World, a: Step, b: Step, limits: Limits)
    requires Enabled(w, a) && Enabled(Next(w, a, limits), b)
    ensures IsRun(w, [a, b], limits) && After(w, [a, b], limits) == Next(Next(w, a, limits), b, limits)
  {
    var v := Next(Next(w, a, limits), b, limits);
    NoSteps(v, limits);
    hide *;
    assert [a, b][1..] == [b] && [b][1..] == [];
    RunHead(w, [a, b], limits);
    RunHead(Next(w, a, limits), [b], limits);
  }

  /** A world with one key, without a lockout. */
  function One(failures: nat, since: int, busy: bool, clock: int, times: seq<int>): World {
    World(map["a" := Attempt(failures, since, None, busy)], if busy then multiset{"a"} else multiset{}, clock,
          map["a" := times])
  }

  /** A failed login, begun and finished at once. */
  function Login(now: int): seq<Step> {
    [BeginStep("a", now), FinishStep("a", false, now)]
  }

  function Logins(now: int, n: nat): seq<Step> {
    if n == 0 then [] else Logins(now, n - 1) + Login(now)
  }

  function Repeated(t: int, n: nat): seq<int> {
    seq(n, _ => t)
  }

  lemma BeginOne(failures: nat, since: int, clock: int, now: int, times: seq<int>, limits: Limits)
    requires clock <= now
    ensures Next(One(failures, since, false, clock, times), BeginStep("a", now), limits) ==
            if now - since > limits.window then One(0, now, true, now, times)
            else One(failures, since, true, now, times)
  {
    var table := map["a" := Attempt(failures, since, None, false)];
    if now - since > limits.window {
      assert Sweep(table, now, limits) == map[];
    } else {
      assert Sweep(table, now, limits) == table;
    }
  }

  /** A failed login from a world with one key, its entry kept or started anew. */
  lemma LoginOne(failures: nat, since: int, clock: int, now: int, times: seq<int>, limits: Limits)
    requires clock <= now
    ensures var w := One(failures, since, false, clock, times);
            var over := now - since > limits.window;
            var f, s := if over then 0 else failures, if over then now else since;
            IsRun(w, Login(now), limits)
            && FailuresOf(After(w, Login(now), limits), "a") == times + [now]
            && (f + 1 < limits.maxFailures ==>
                  After(w, Login(now), limits) == One(f + 1, s, false, now, times + [now]))
  {
    BeginOne(failures, since, clock, now, times, limits);
    hide IsRun, After, Begun;
    TwoSteps(One(failures, since, false, clock, times), BeginStep("a", now), FinishStep("a", false, now), limits);
  }

  lemma {:induction false} LoginsRun(failures: nat, since: int, clock: int, now: int, times: seq<int>, n: nat,
                                     limits: Limits)
    requires clock <= now && failures + n < limits.maxFailures && (n > 0 ==> now <= since + limits.window)
    ensures var w := One(failures, since, false, clock, times);
            IsRun(w, Logins(now, n), limits)
            && After(w, Logins(now, n), limits)
               == One(failures + n, since, false, if n == 0 then clock else now, times + Repeated(now, n))
  {
    hide IsRun, After, One, Login, FailuresOf, Next;
    var w := One(failures, since, false, clock, times);
    if n == 0 {
      NoSteps(w, limits);
      assert times + Repeated(now, 0) == times;
    } else {
      LoginsRun(failures, since, clock, now, times, n - 1, limits);
      LoginOne(failures + n - 1, since, if n == 1 then clock else now, now, times + Repeated(now, n - 1), limits);
      RunConcat(w, Logins(now, n - 1), Login(now), limits);
      assert times + Repeated(now, n - 1) + [now] == times + Repeated(now, n);
    }
  }

  /** The first login of a run, which fails later on. */
  lemma SlowLogin(clock: int, now: int, limits: Limits)
    requires clock <= now
    ensures var steps := [BeginStep("a", clock), FinishStep("a", false, now)];
            IsRun(Start(clock), steps, limits)
            && FailuresOf(After(Start(clock), steps, limits), "a") == [now]
            && (limits.maxFailures > 1 ==> After(Start(clock), steps, limits) == One(1, clock, false, now, [now]))
  {
    var begun := Next(Start(clock), BeginStep("a", clock), limits);
    assert Sweep(map[], clock, limits) == map[];
    assert begun == World(map["a" := Attempt(0, clock, None, true)], multiset{"a"}, clock, map[]);
    assert [] + [now] == [now];
    hide IsRun, After, Begun;
    TwoSteps(Start(clock), BeginStep("a", clock), FinishStep("a", false, now), limits);
  }

  /** When the window of an entry is over, as many failures as the limit still follow at once. */
  lemma NextWindow(failures: nat, since: int, clock: int, times: seq<int>, limits: Limits)
    requires limits.maxFailures > 1 && clock <= since + limits.window + 1
    ensures var w, now := One(failures, since, false, clock, times), since + limits.window + 1;
            exists steps :: IsRun(w, steps, limits)
              && FailuresOf(After(w, steps, limits), "a") == times + Repeated(now, limits.maxFailures)
  {
    var w, now, m := One(failures, since, false, clock, times), since + limits.window + 1, limits.maxFailures;
    hide IsRun, After, One, Login, FailuresOf, Logins;
    LoginOne(failures, since, clock, now, times, limits);
    LoginsRun(1, now, now, now, times + [now], m - 2, limits);
    RunConcat(w, Login(now), Logins(now, m - 2), limits);
    var most := times + [now] + Repeated(now, m - 2);
    LoginOne(m - 1, now, now, now, most, limits);
    RunConcat(w, Login(now) + Logins(now, m - 2), Login(now), limits);
    assert most + [now] == times + Repeated(now, m);
  }

  lemma {:induction false} RepeatedWithin(t: int, n: nat, from: int, span: int)
    ensures Within(Repeated(t, n), from, span) == if from <= t < from + span then n else 0
  {
    if n > 0 {
      RepeatedWithin(t, n - 1, from, span);
      assert Repeated(t, n)[..n - 1] == Repeated(t, n - 1);
    }
  }

  /** Failures up to the last moment of a window, or one just after it. */
  lemma FirstWindow(clock: int, now: int, n: nat, limits: Limits)
    requires n + 1 < limits.maxFailures && clock <= now && (n > 0 ==> now <= clock + limits.window)
    ensures var steps := [BeginStep("a", clock), FinishStep("a", false, now)] + Logins(now, n);
            IsRun(Start(clock), steps, limits)
            && After(Start(clock), steps, limits) == One(n + 1, clock, false, now, Repeated(now, n + 1))
  {
    hide IsRun, After, One, FailuresOf, Logins;
    SlowLogin(clock, now, limits);
    LoginsRun(1, clock, now, now, [now], n, limits);
    assert [now] + Repeated(now, n) == Repeated(now, n + 1);
    RunConcat(Start(clock), [BeginStep("a", clock), FinishStep("a", false, now)], Logins(now, n), limits);
  }

  /** After such failures as many as the limit still fit into the next window. */
  lemma TwoWindows(clock: int, now: int, n: nat, limits: Limits)
    requires n + 1 < limits.maxFailures
    requires clock <= now <= clock + limits.window + 1 && (n > 0 ==> now <= clock + limits.window)
    ensures exists steps :: IsRun(Start(clock), steps, limits)
              && FailuresOf(After(Start(clock), steps, limits), "a")
                 == Repeated(now, n + 1) + Repeated(clock + limits.window + 1, limits.maxFailures)
  {
    hide *;
    FirstWindow(clock, now, n, limits);
    var first := [BeginStep("a", clock), FinishStep("a", false, now)] + Logins(now, n);
    var w := One(n + 1, clock, false, now, Repeated(now, n + 1));
    NextWindow(n + 1, clock, now, Repeated(now, n + 1), limits);
    var steps :| IsRun(w, steps, limits)
      && FailuresOf(After(w, steps, limits), "a")
         == Repeated(now, n + 1) + Repeated(clock + limits.window + 1, limits.maxFailures);
    RunConcat(Start(clock), first, steps, limits);
  }

  lemma BoundIsReachedTwice(clock: int, limits: Limits)
    requires limits.maxFailures > 1
    ensures exists steps, t :: IsRun(Start(clock), steps, limits)
              && Within(FailuresOf(After(Start(clock), steps, limits), "a"), t, Span(limits)) == MostWithin(limits)
  {
    var m, end := limits.maxFailures, clock + limits.window + 1;
    var now, n := if Span(limits) == 1 then end else end - 1, Carried(limits) - 1;
    var times := Repeated(now, n + 1) + Repeated(end, m);
    hide IsRun, After, FailuresOf;
    TwoWindows(clock, now, n, limits);
    WithinConcat(Repeated(now, n + 1), Repeated(end, m), now, Span(limits));
    RepeatedWithin(now, n + 1, now, Span(limits));
    RepeatedWithin(end, m, now, Span(limits));
    var steps :| IsRun(Start(clock), steps, limits)
      && FailuresOf(After(Start(clock), steps, limits), "a") == times;
  }

  /** Whatever the options, some run reaches the bound. */
  lemma BoundIsReached(clock: int, limits: Limits)
    ensures exists steps, t :: IsRun(Start(clock), steps, limits)
              && Within(FailuresOf(After(Start(clock), steps, limits), "a"), t, Span(limits)) == MostWithin(limits)
  {
    if limits.maxFailures == 1 {
      SlowLogin(clock, clock, limits);
      assert Within([clock], clock, Span(limits)) == 1;
    } else {
      BoundIsReachedTwice(clock, limits);
    }
  }
}
