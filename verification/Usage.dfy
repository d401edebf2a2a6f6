/**
 The usage accumulator of internal/eventlog/usage.go: calls are counted per user and route in
 rows kept in first-call order; calls that find no room for a row are only counted together.
 */
module Usage {
  import opened Optional

  /** An API call. The empty name and the empty user, address and location are the falsy ones. */
  datatype Event = Event(name: string, userId: string, ip: string, location: Option<string>, at: Option<int>)

  datatype Row = Row(name: string, userId: string, ip: string, location: Option<string>,
                     count: int, firstAt: Option<int>, at: Option<int>)

  datatype Pending = Pending(rows: map<string, Row>, order: seq<string>, overflow: nat)

  const EMPTY := Pending(map[], [], 0)

  function UsageKey(name: string, userId: string): string {
    userId + "\0" + name
  }

  function KeyOf(e: Event): string {
    UsageKey(e.name, e.userId)
  }

  function FirstRow(e: Event): Row {
    Row(e.name, e.userId, e.ip, e.location, 1, e.at, e.at)
  }

  function CountedAgain(row: Row, e: Event): Row {
    var row := row.(count := row.count + 1);
    if e.at.Some? && row.at.Some? && e.at.value > row.at.value then
      row.(at := e.at,
           ip := if e.ip != "" then e.ip else row.ip,
           location := if e.location.Some? then e.location else row.location)
    else row
  }

  /** What one call leaves pending. */
  function Added(p: Pending, limit: int, e: Event): Pending {
    var key := KeyOf(e);
    if e.name == "" then p
    else if key in p.rows then p.(rows := p.rows[key := CountedAgain(p.rows[key], e)])
    else if |p.rows| >= limit then p.(overflow := p.overflow + 1)
    else p.(rows := p.rows[key := FirstRow(e)], order := p.order + [key])
  }

  /** What a sequence of calls leaves pending. */
  function Reached(limit: int, events: seq<Event>): Pending {
    if events == [] then EMPTY else Added(Reached(limit, events[..|events| - 1]), limit, events[|events| - 1])
  }

  lemma ReachedNext(limit: int, events: seq<Event>, e: Event)
    ensures Reached(limit, events + [e]) == Added(Reached(limit, events), limit, e)
  {
    assert (events + [e])[..|events|] == events;
  }

  /** The row that stands for the calls beyond the limit. */
  function OverflowRow(p: Pending, title: string, now: int): Row
    requires forall key | key in p.order :: key in p.rows
  {
    var firstAt := if p.order == [] then Some(now) else p.rows[p.order[0]].firstAt;
    Row(title, "", "", None, p.overflow, firstAt, Some(now))
  }

  function RowsOf(p: Pending): seq<Row>
    requires forall key | key in p.order :: key in p.rows
  {
    seq(|p.order|, i requires 0 <= i < |p.order| => p.rows[p.order[i]])
  }

  function DrainedRows(p: Pending, title: string, now: int): seq<Row>
    requires forall key | key in p.order :: key in p.rows
  {
    RowsOf(p) + if p.overflow > 0 then [OverflowRow(p, title, now)] else []
  }

  class UsageAccumulator {
    const maxTracked: int
    /** The name of the overflow row, which mentions the limit. */
    const title: string
    var pending: map<string, Row>
    var order: seq<string>
    var overflow: nat
    /** The calls since the last drain. */
    ghost var events: seq<Event>

    ghost predicate Valid()
      reads this
    {
      Pending(pending, order, overflow) == Reached(maxTracked, events)
    }

    constructor (maxTracked: int, title: string)
      ensures Valid() && events == [] && this.maxTracked == maxTracked && this.title == title
    {
      this.maxTracked, this.title := maxTracked, title;
      pending, order, overflow, events := map[], [], 0, [];
    }

    /** Counts a call and says whether it has a row of its own. */
    method Add(e: Event) returns (tracked: bool)
      requires Valid()
      modifies this
      ensures Valid() && events == old(events) + [e]
      ensures tracked <==> e.name != "" && KeyOf(e) in Tracked(maxTracked, events)
    {
      ReachedNext(maxTracked, events, e);
      hide Reached, FirstKeys, Tracked, Distinct;
      events := events + [e];
      TrackedAreFirst(maxTracked, events);
      if e.name == "" { return false; }
      var key := KeyOf(e);
      if key in pending {
        var row := pending[key];
        row := row.(count := row.count + 1);
        if e.at.Some? && row.at.Some? && e.at.value > row.at.value {
          row := row.(at := e.at);
          if e.ip != "" { row := row.(ip := e.ip); }
          if e.location.Some? { row := row.(location := e.location); }
        }
        pending := pending[key := row];
        return true;
      }
      if |pending| >= maxTracked {
        overflow := overflow + 1;
        return false;
      }
      pending := pending[key := FirstRow(e)];
      order := order + [key];
      return true;
    }

    method Size() returns (n: nat)
      requires Valid()
      ensures n == |Tracked(maxTracked, events)|
    {
      TrackedAreFirst(maxTracked, events);
      return |pending|;
    }

    /** Returns the rows in first-call order and forgets everything. */
    method DrainAt(now: int) returns (rows: seq<Row>)
      requires Valid()
      modifies this
      ensures Valid() && events == []
      ensures (forall key | key in Reached(maxTracked, old(events)).order ::
                 key in Reached(maxTracked, old(events)).rows)
              && rows == DrainedRows(Reached(maxTracked, old(events)), title, now)
    {
      TrackedAreFirst(maxTracked, events);
      ghost var p := Reached(maxTracked, events);
      hide Reached, FirstKeys, Tracked, Distinct;
      rows := [];
      for i := 0 to |order|
        invariant |rows| == i && forall j | 0 <= j < i :: rows[j] == pending[order[j]]
      {
        rows := rows + [pending[order[i]]];
      }
      assert rows == RowsOf(p);
      if overflow > 0 {
        var row := Row(title, "", "", None, overflow, None, Some(now));
        if |rows| > 0 {
          row := row.(firstAt := rows[0].firstAt);
        } else {
          row := row.(firstAt := Some(now));
        }
        rows := rows + [row];
      }
      pending, order, overflow, events := map[], [], 0, [];
      NothingReached(maxTracked);
    }
  }

  lemma NothingReached(limit: int)
    ensures Reached(limit, []) == EMPTY
  {}

  // ---- which calls get a row ----

  /** The distinct keys of the named calls, in the order of their first call. */
  function FirstKeys(events: seq<Event>): seq<string> {
    if events == [] then [] else WithKey(FirstKeys(events[..|events| - 1]), events[|events| - 1])
  }

  function WithKey(keys: seq<string>, e: Event): seq<string> {
    if e.name == "" || KeyOf(e) in keys then keys else keys + [KeyOf(e)]
  }

  function Front(keys: seq<string>, limit: int): seq<string> {
    if limit <= 0 then [] else if |keys| <= limit then keys else keys[..limit]
  }

  /** The first keys that fit under the limit. */
  function Tracked(limit: int, events: seq<Event>): seq<string> {
    Front(FirstKeys(events), limit)
  }

  predicate Distinct(keys: seq<string>) {
    forall i, j | 0 <= i < j < |keys| :: keys[i] != keys[j]
  }

  ghost predicate Tracks(p: Pending, keys: seq<string>, limit: int) {
    && p.order == Front(keys, limit) && |p.order| == |p.rows|
    && Distinct(keys) && forall key :: key in p.rows <==> key in p.order
  }

  lemma AddedTracks(p: Pending, keys: seq<string>, limit: int, e: Event)
    requires Tracks(p, keys, limit)
    ensures Tracks(Added(p, limit, e), WithKey(keys, e), limit)
  {
    hide CountedAgain, FirstRow, KeyOf;
  }

  /** The rows are those of the first keys, once each and in order. */
  lemma {:induction false} TrackedAreFirst(limit: int, events: seq<Event>)
    ensures var p := Reached(limit, events);
            p.order == Tracked(limit, events) && |p.order| == |p.rows|
            && Distinct(FirstKeys(events)) && forall key :: key in p.rows <==> key in p.order
  {
    if events != [] {
      var before, e := events[..|events| - 1], events[|events| - 1];
      TrackedAreFirst(limit, before);
      hide Added, WithKey, Front, Distinct;
      assert Tracks(Reached(limit, before), FirstKeys(before), limit);
      AddedTracks(Reached(limit, before), FirstKeys(before), limit, e);
    }
  }

  /** How often a key was called. */
  function Calls(events: seq<Event>, key: string): nat {
    if events == [] then 0
    else
      var e := events[|events| - 1];
      Calls(events[..|events| - 1], key) + if e.name != "" && KeyOf(e) == key then 1 else 0
  }

  /** The number of named calls. */
  function Named(events: seq<Event>): nat {
    if events == [] then 0 else Named(events[..|events| - 1]) + if events[|events| - 1].name != "" then 1 else 0
  }

  lemma {:induction false} NeverCalled(events: seq<Event>, key: string)
    requires key !in FirstKeys(events)
    ensures Calls(events, key) == 0
  {
    if events != [] {
      NeverCalled(events[..|events| - 1], key);
    }
  }

  predicate IsCall(e: Event, key: string) {
    e.name != "" && KeyOf(e) == key
  }

  lemma NewRowIsNew(limit: int, before: seq<Event>, e: Event, key: string)
    requires key !in Reached(limit, before).rows && key in Added(Reached(limit, before), limit, e).rows
    ensures IsCall(e, key) && key !in FirstKeys(before)
            && Added(Reached(limit, before), limit, e).rows[key] == FirstRow(e)
  {
    TrackedAreFirst(limit, before);
  }

  /** A row counts every call of its key, also those made after the limit was reached. */
  lemma {:induction false} RowsCountCalls(limit: int, events: seq<Event>, key: string)
    requires key in Reached(limit, events).rows
    ensures Reached(limit, events).rows[key].count == Calls(events, key)
  {
    var before := events[..|events| - 1];
    hide FirstKeys, KeyOf;
    if key in Reached(limit, before).rows {
      RowsCountCalls(limit, before, key);
    } else {
      NewRowIsNew(limit, before, events[|events| - 1], key);
      NeverCalled(before, key);
    }
  }

  function Total(rows: seq<Row>): int {
    if rows == [] then 0 else Total(rows[..|rows| - 1]) + rows[|rows| - 1].count
  }

  lemma {:induction false} TotalAfterUpdate(rows: seq<Row>, i: nat, row: Row)
    requires i < |rows|
    ensures Total(rows[i := row]) == Total(rows) - rows[i].count + row.count
    decreases |rows|
  {
    var n := |rows| - 1;
    if i < n {
      TotalAfterUpdate(rows[..n], i, row);
      assert rows[i := row][..n] == rows[..n][i := row];
    } else {
      assert rows[i := row][..n] == rows[..n];
    }
  }

  /** Every named call is in exactly one row or in the overflow. */
  lemma {:induction false} NothingIsUncounted(limit: int, events: seq<Event>)
    ensures var p := Reached(limit, events);
            (forall key | key in p.order :: key in p.rows) && Total(RowsOf(p)) + p.overflow == Named(events)
  {
    TrackedAreFirst(limit, events);
    if events != [] {
      var e := events[|events| - 1];
      NothingIsUncounted(limit, events[..|events| - 1]);
      TrackedAreFirst(limit, events[..|events| - 1]);
      CallKeepsTotal(Reached(limit, events[..|events| - 1]), limit, e);
    }
  }

  lemma CallKeepsTotal(p: Pending, limit: int, e: Event)
    requires Distinct(p.order) && forall key :: key in p.rows <==> key in p.order
    ensures var p' := Added(p, limit, e);
            (forall key | key in p'.order :: key in p'.rows)
            && Total(RowsOf(p')) + p'.overflow == Total(RowsOf(p)) + p.overflow + if e.name != "" then 1 else 0
  {
    var key, p' := KeyOf(e), Added(p, limit, e);
    if e.name != "" && key in p.rows {
      var i: nat :| i < |p.order| && p.order[i] == key;
      assert RowsOf(p') == RowsOf(p)[i := p'.rows[key]];
      TotalAfterUpdate(RowsOf(p), i, p'.rows[key]);
    } else if p'.order != p.order {
      assert RowsOf(p')[..|p.order|] == RowsOf(p);
    } else {
      assert RowsOf(p') == RowsOf(p);
    }
  }

  /** What is drained adds up to the named calls, and holds at most one row more than the limit. */
  lemma DrainedAddUp(limit: int, events: seq<Event>, title: string, now: int)
    ensures var p := Reached(limit, events);
            (forall key | key in p.order :: key in p.rows)
            && Total(DrainedRows(p, title, now)) == Named(events)
            && |DrainedRows(p, title, now)| <= 1 + if limit > 0 then limit else 0
  {
    var p := Reached(limit, events);
    TrackedAreFirst(limit, events);
    NothingIsUncounted(limit, events);
    if p.overflow > 0 {
      assert DrainedRows(p, title, now)[..|p.order|] == RowsOf(p);
    } else {
      assert DrainedRows(p, title, now) == RowsOf(p);
    }
  }

  // ---- dates ----

  /** The date of the first call of a key. */
  function FirstDate(events: seq<Event>, key: string): Option<int> {
    if events == [] then None
    else
      var before, e := events[..|events| - 1], events[|events| - 1];
      if key !in FirstKeys(before) && e.name != "" && KeyOf(e) == key then e.at else FirstDate(before, key)
  }

  /** Some call of the key has the row's date, and none has a later one. */
  ghost predicate Latest(row: Row, events: seq<Event>, key: string) {
    && row.at.Some?
    && (exists e :: e in events && IsCall(e, key) && e.at == row.at)
    && forall e | e in events && IsCall(e, key) && e.at.Some? :: e.at.value <= row.at.value
  }

  lemma LatestStays(row: Row, before: seq<Event>, e: Event, key: string)
    requires Latest(row, before, key)
    ensures Latest(if IsCall(e, key) then CountedAgain(row, e) else row, before + [e], key)
  {
    assert forall f :: f in before + [e] <==> f in before || f == e;
  }

  /** A row dates from its first call to its latest; without a first date it never gets one. */
  lemma {:induction false} RowDates(limit: int, events: seq<Event>, key: string)
    requires key in Reached(limit, events).rows
    ensures var row := Reached(limit, events).rows[key];
            row.firstAt == FirstDate(events, key)
            && if row.firstAt.None? then row.at.None? else Latest(row, events, key)
  {
    var before, e := events[..|events| - 1], events[|events| - 1];
    assert events == before + [e];
    hide FirstKeys, KeyOf, Latest;
    if key in Reached(limit, before).rows {
      RowDates(limit, before, key);
      RowIsFirst(limit, before, key);
      if Reached(limit, before).rows[key].firstAt.Some? {
        LatestStays(Reached(limit, before).rows[key], before, e, key);
      }
    } else {
      NewRowIsNew(limit, before, e, key);
      if e.at.Some? { LatestAtFirst(before, e, key); }
    }
  }

  lemma RowIsFirst(limit: int, events: seq<Event>, key: string)
    requires key in Reached(limit, events).rows
    ensures key in FirstKeys(events)
  {
    TrackedAreFirst(limit, events);
  }

  lemma LatestAtFirst(before: seq<Event>, e: Event, key: string)
    requires key !in FirstKeys(before) && IsCall(e, key) && e.at.Some?
    ensures Latest(FirstRow(e), before + [e], key)
  {
    assert (before + [e])[|before|] == e;
    forall f | f in before + [e] && IsCall(f, key) ensures f == e {
      if f != e {
        var j: nat :| j < |before| && before[j] == f;
        NotAmongFirst(before, key, j);
      }
    }
  }

  lemma {:induction false} NotAmongFirst(events: seq<Event>, key: string, j: nat)
    requires key !in FirstKeys(events) && j < |events|
    ensures !IsCall(events[j], key)
    decreases |events|
  {
    var before := events[..|events| - 1];
    if j < |before| {
      NotAmongFirst(before, key, j);
    }
  }

  /** Calls share a row only when user and route agree, as long as no user id holds a NUL character. */
  lemma KeysTellApart(e: Event, f: Event)
    requires '\0' !in e.userId && '\0' !in f.userId && KeyOf(e) == KeyOf(f)
    ensures e.userId == f.userId && e.name == f.name
  {
    var k := KeyOf(e);
    NulEndsUser(e);
    NulEndsUser(f);
    assert |e.userId| == |f.userId|;
    assert e.userId == k[..|e.userId|] && e.name == k[|e.userId| + 1..];
    assert f.userId == k[..|f.userId|] && f.name == k[|f.userId| + 1..];
  }

  lemma NulEndsUser(e: Event)
    requires '\0' !in e.userId
    ensures |KeyOf(e)| > |e.userId| && KeyOf(e)[|e.userId|] == '\0'
    ensures forall i | 0 <= i < |e.userId| :: KeyOf(e)[i] != '\0'
  {}

  // ---- the other fields of a row ----

  /** Call n is the first of the key. */
  ghost predicate Opens(events: seq<Event>, n: nat, key: string) {
    n < |events| && IsCall(events[n], key) && forall m | 0 <= m < n :: !IsCall(events[m], key)
  }

  /** Call n opens the row, or is later than every dated call of the key before it, in a row with a first date. */
  ghost predicate Leads(events: seq<Event>, n: nat, key: string) {
    && n < |events| && IsCall(events[n], key)
    && (Opens(events, n, key)
        || (&& events[n].at.Some?
            && (exists f: nat :: f < n && Opens(events, f, key) && events[f].at.Some?)
            && forall m | 0 <= m < n && IsCall(events[m], key) && events[m].at.Some? ::
                 events[m].at.value < events[n].at.value))
  }

  /** Call n gives the row its address: the first call whatever it has, a leading one if it has any. */
  ghost predicate GivesIp(events: seq<Event>, n: nat, key: string) {
    Leads(events, n, key) && (Opens(events, n, key) || events[n].ip != "")
  }

  ghost predicate GivesLocation(events: seq<Event>, n: nat, key: string) {
    Leads(events, n, key) && (Opens(events, n, key) || events[n].location.Some?)
  }

  ghost predicate IpIs(events: seq<Event>, key: string, ip: string) {
    exists n: nat :: GivesIp(events, n, key) && events[n].ip == ip && forall m: nat | n < m :: !GivesIp(events, m, key)
  }

  ghost predicate LocationIs(events: seq<Event>, key: string, location: Option<string>) {
    exists n: nat :: GivesLocation(events, n, key) && events[n].location == location
                     && forall m: nat | n < m :: !GivesLocation(events, m, key)
  }

  lemma LeadsExtends(events: seq<Event>, e: Event, n: nat, key: string)
    requires n < |events|
    ensures Opens(events + [e], n, key) <==> Opens(events, n, key)
    ensures Leads(events + [e], n, key) <==> Leads(events, n, key)
  {
    var all := events + [e];
    assert forall m | 0 <= m < |events| :: all[m] == events[m];
    forall f: nat | f <= n ensures Opens(all, f, key) <==> Opens(events, f, key) {}
  }

  lemma OpensBefore(events: seq<Event>, n: nat, key: string)
    ensures Leads(events, n, key) || Opens(events, n, key) ==> n < |events|
  {}

  lemma {:induction false} FirstCall(events: seq<Event>, key: string) returns (f: nat)
    requires key in FirstKeys(events)
    ensures Opens(events, f, key) && FirstDate(events, key) == events[f].at
  {
    var before, e := events[..|events| - 1], events[|events| - 1];
    assert events == before + [e];
    if key in FirstKeys(before) {
      f := FirstCall(before, key);
      LeadsExtends(before, e, f, key);
    } else {
      f := |before|;
      forall m: nat | m < |before| ensures !IsCall(events[m], key) { NotAmongFirst(before, key, m); }
    }
  }

  /** A further call leads exactly when it is later than the row's date. */
  lemma LeadsWhenLater(events: seq<Event>, e: Event, key: string, row: Row)
    requires key in FirstKeys(events) && IsCall(e, key) && row.firstAt == FirstDate(events, key)
    requires if row.firstAt.None? then row.at.None? else Latest(row, events, key)
    ensures !Opens(events + [e], |events|, key)
    ensures Leads(events + [e], |events|, key) <==> e.at.Some? && row.at.Some? && e.at.value > row.at.value
  {
    var all := events + [e];
    var f := FirstCall(events, key);
    assert forall m | 0 <= m < |events| :: all[m] == events[m];
    assert all[|events|] == e && all[f] == events[f];
    LeadsExtends(events, e, f, key);
    if row.at.Some? {
      var x :| x in events && IsCall(x, key) && x.at == row.at;
      var n :| 0 <= n < |events| && events[n] == x;
      assert all[n] == x;
    } else {
      forall g: nat | g < |events| && Opens(all, g, key) ensures g == f {
        LeadsExtends(events, e, g, key);
      }
    }
  }

  lemma GivesExtend(events: seq<Event>, e: Event, key: string)
    ensures forall n: nat | n < |events| :: GivesIp(events + [e], n, key) <==> GivesIp(events, n, key)
    ensures forall n: nat | n < |events| :: GivesLocation(events + [e], n, key) <==> GivesLocation(events, n, key)
    ensures forall n: nat | GivesIp(events, n, key) || GivesLocation(events, n, key) :: n < |events|
    ensures forall n: nat | GivesIp(events + [e], n, key) || GivesLocation(events + [e], n, key) :: n <= |events|
    ensures forall n: nat | n < |events| :: (events + [e])[n] == events[n]
  {
    forall n: nat | n < |events|
      ensures GivesIp(events + [e], n, key) <==> GivesIp(events, n, key)
      ensures GivesLocation(events + [e], n, key) <==> GivesLocation(events, n, key)
    {
      LeadsExtends(events, e, n, key);
      assert (events + [e])[n] == events[n];
      hide Leads, Opens;
    }
  }

  lemma IpStep(events: seq<Event>, e: Event, key: string, ip: string)
    requires IpIs(events, key, ip)
    ensures IpIs(events + [e], key, if GivesIp(events + [e], |events|, key) then e.ip else ip)
  {
    GivesExtend(events, e, key);
    hide GivesIp;
    var all := events + [e];
    assert all[|events|] == e;
    var n: nat :| GivesIp(events, n, key) && events[n].ip == ip && forall m: nat | n < m :: !GivesIp(events, m, key);
    if !GivesIp(all, |events|, key) {
      assert GivesIp(all, n, key) && all[n].ip == ip;
    }
  }

  lemma LocationStep(events: seq<Event>, e: Event, key: string, location: Option<string>)
    requires LocationIs(events, key, location)
    ensures LocationIs(events + [e], key, if GivesLocation(events + [e], |events|, key) then e.location else location)
  {
    GivesExtend(events, e, key);
    hide GivesLocation;
    var all := events + [e];
    assert all[|events|] == e;
    var n: nat :| GivesLocation(events, n, key) && events[n].location == location
      && forall m: nat | n < m :: !GivesLocation(events, m, key);
    if !GivesLocation(all, |events|, key) {
      assert GivesLocation(all, n, key) && all[n].location == location;
    }
  }

  /** Name and user of a row are those of its first call; address and location are those of the last leading call
      that has any, or else of the first. */
  lemma {:induction false} RowFieldsAre(limit: int, events: seq<Event>, key: string)
    requires key in Reached(limit, events).rows
    ensures var row := Reached(limit, events).rows[key];
            && IpIs(events, key, row.ip) && LocationIs(events, key, row.location)
            && exists f: nat :: Opens(events, f, key) && row.name == events[f].name && row.userId == events[f].userId
  {
    var before, e := events[..|events| - 1], events[|events| - 1];
    assert events == before + [e];
    hide FirstKeys, IpIs, LocationIs, Leads, Opens, Latest, FirstDate, FirstRow;
    if key in Reached(limit, before).rows {
      var row := Reached(limit, before).rows[key];
      RowFieldsAre(limit, before, key);
      RowDates(limit, before, key);
      RowIsFirst(limit, before, key);
      var f: nat :| Opens(before, f, key) && row.name == before[f].name && row.userId == before[f].userId;
      OpensBefore(before, f, key);
      LeadsExtends(before, e, f, key);
      FieldsAfter(before, e, key, row);
      AddedRow(Reached(limit, before), limit, e, key);
      assert events[f] == before[f];
    } else {
      NewRowIsNew(limit, before, e, key);
      FieldsAtFirst(before, e, key);
    }
  }

  lemma AddedRow(p: Pending, limit: int, e: Event, key: string)
    requires key in p.rows
    ensures key in Added(p, limit, e).rows
    ensures Added(p, limit, e).rows[key] == if IsCall(e, key) then CountedAgain(p.rows[key], e) else p.rows[key]
  {
    hide KeyOf, CountedAgain, FirstRow;
  }

  lemma FieldsAfter(before: seq<Event>, e: Event, key: string, row: Row)
    requires IpIs(before, key, row.ip) && LocationIs(before, key, row.location) && key in FirstKeys(before)
    requires row.firstAt == FirstDate(before, key)
    requires if row.firstAt.None? then row.at.None? else Latest(row, before, key)
    ensures var row' := if IsCall(e, key) then CountedAgain(row, e) else row;
            && IpIs(before + [e], key, row'.ip) && LocationIs(before + [e], key, row'.location)
            && row'.name == row.name && row'.userId == row.userId
  {
    hide IpIs, LocationIs, Latest, FirstKeys, FirstDate, Opens;
    IpStep(before, e, key, row.ip);
    LocationStep(before, e, key, row.location);
    assert (before + [e])[|before|] == e;
    if IsCall(e, key) { LeadsWhenLater(before, e, key, row); }
  }

  lemma FieldsAtFirst(before: seq<Event>, e: Event, key: string)
    requires key !in FirstKeys(before) && IsCall(e, key)
    ensures Opens(before + [e], |before|, key) && (before + [e])[|before|] == e
    ensures IpIs(before + [e], key, FirstRow(e).ip) && LocationIs(before + [e], key, FirstRow(e).location)
    ensures FirstRow(e).name == e.name && FirstRow(e).userId == e.userId
  {
    var all := before + [e];
    assert all[|before|] == e;
    forall m: nat | m < |before| ensures !IsCall(all[m], key) {
      NotAmongFirst(before, key, m);
      assert all[m] == before[m];
    }
    assert GivesIp(all, |before|, key) && GivesLocation(all, |before|, key);
    assert forall n: nat :: GivesIp(all, n, key) || GivesLocation(all, n, key) ==> n <= |before|;
  }

  /** The row of the calls beyond the limit. */
  lemma OverflowRowIs(limit: int, events: seq<Event>, title: string, now: int)
    ensures forall key | key in Reached(limit, events).order :: key in Reached(limit, events).rows
    ensures var p := Reached(limit, events);
            var first := if p.order == [] then Some(now) else p.rows[p.order[0]].firstAt;
            && OverflowRow(p, title, now) == Row(title, "", "", None, p.overflow, first, Some(now))
            && (p.overflow > 0 <==> |DrainedRows(p, title, now)| == |p.order| + 1)
  {
    TrackedAreFirst(limit, events);
  }
}
