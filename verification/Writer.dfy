/**
 The incremental event writer of internal/eventlog/writer.go: an in-memory cache of the
 actors of each row decides which new actors still fit under the cap. Reads and writes may
 fail, and a failed write may have been applied.
 */
module Writer {
  import opened Optional
  import opened Folding
  import opened Sums

  const MAX_CACHED_ROWS := 500

  /** One occurrence: the identity of its row, the user name and the classified address. */
  datatype Occurrence = Occurrence(identity: string, user: string, address: Address)

  /** What goes wrong during one call of Fold. */
  datatype Fault = Fine | Cancelled | ReadFails | IdFails | UpdateFails | UpdateLost

  /** A stored row: its count, the count of each actor, and the occurrences beyond the cap. */
  datatype LogRow = LogRow(count: real, actors: map<string, real>, overflow: real)

  type Rows = map<string, LogRow>
  type Cache = map<string, set<string>>

  datatype State = State(known: Cache, rows: Rows)

  /** The $inc part of an update: the actors counted, and how much goes to the overflow. */
  datatype Increment = Increment(actors: seq<string>, overflow: real)

  function Actors(o: Occurrence): seq<string> {
    (if o.user != "" then [ActorKey("user", o.user)] else [])
    + (match o.address
       case NoAddress => []
       case V4(v) => [ActorKey("ip", v)]
       case V6(v) => [ActorKey("ip", v)])
  }

  /** ActorUpdate over the actors in order: known ones count, new ones while there is room. */
  function ActorUpdate(actors: seq<string>, known: set<string>, room: int, times: real): Increment
    decreases |actors|
  {
    if actors == [] then Increment([], 0.0)
    else if actors[0] in known then
      var rest := ActorUpdate(actors[1..], known, room, times);
      rest.(actors := [actors[0]] + rest.actors)
    else if room <= 0 then
      var rest := ActorUpdate(actors[1..], known, room, times);
      rest.(overflow := rest.overflow + times)
    else
      var rest := ActorUpdate(actors[1..], known, room - 1, times);
      rest.(actors := [actors[0]] + rest.actors)
  }

  function Bump(counts: map<string, real>, actors: seq<string>, times: real): map<string, real>
    decreases |actors|
  {
    if actors == [] then counts
    else
      var k := actors[0];
      Bump(counts[k := times + if k in counts then counts[k] else 0.0], actors[1..], times)
  }

  const EMPTY_ROW := LogRow(0.0, map[], 0.0)

  function RowOf(rows: Rows, identity: string): LogRow {
    if identity in rows then rows[identity] else EMPTY_ROW
  }

  /** The upsert: count by one, actors and overflow by the increment. */
  function Apply(r: LogRow, inc: Increment): LogRow {
    LogRow(r.count + 1.0, Bump(r.actors, inc.actors, 1.0), r.overflow + inc.overflow)
  }

  function Elements(q: seq<string>): set<string> {
    set x | x in q
  }

  /** The cache before the update is computed: the row's entry is there. */
  function Cached(s: State, identity: string): Cache {
    if identity in s.known then s.known
    else (if |s.known| >= MAX_CACHED_ROWS then map[] else s.known)[identity := RowOf(s.rows, identity).actors.Keys]
  }

  /** The increment a writer computes from the cached actors of the row. */
  function Planned(known: set<string>, o: Occurrence): Increment {
    ActorUpdate(Actors(o), known, MAX_ACTORS - |known|, 1.0)
  }

  function Written(rows: Rows, o: Occurrence, inc: Increment): Rows {
    rows[o.identity := Apply(RowOf(rows, o.identity), inc)]
  }

  /** The rest of one call once the row's actors are cached. */
  function Update(known: Cache, rows: Rows, o: Occurrence, fault: Fault): State
    requires o.identity in known
  {
    var inc := Planned(known[o.identity], o);
    match fault
    case IdFails => State(known, rows)
    case UpdateFails => State(known - {o.identity}, rows)
    case UpdateLost => State(known - {o.identity}, Written(rows, o, inc))
    case _ => State(known[o.identity := known[o.identity] + Elements(inc.actors)], Written(rows, o, inc))
  }

  /** What one call of Fold does to cache and collection. */
  function Step(s: State, o: Occurrence, fault: Fault): State {
    if fault == Cancelled || (fault == ReadFails && o.identity !in s.known) then s
    else Update(Cached(s, o.identity), s.rows, o, fault)
  }

  // ---- the code ----

  class EventLog {
    var rows: Rows

    /** UpdateOne with upsert on the row of the identity. */
    method Upsert(identity: string, inc: Increment)
      modifies this
      ensures rows == old(rows)[identity := Apply(RowOf(old(rows), identity), inc)]
    {
      rows := rows[identity := Apply(RowOf(rows, identity), inc)];
    }
  }

  class EventWriter {
    const log: EventLog
    var knownActors: Cache

    constructor (log: EventLog)
      ensures this.log == log && knownActors == map[]
    {
      this.log, knownActors := log, map[];
    }

    function Now(): State
      reads this, log
    {
      State(knownActors, log.rows)
    }

    /** The loop of ActorUpdate with its shrinking room. */
    method ComputeUpdate(actors: seq<string>, known: set<string>) returns (inc: Increment)
      ensures inc == ActorUpdate(actors, known, MAX_ACTORS - |known|, 1.0)
    {
      var counted, overflow, room := [], 0.0, MAX_ACTORS - |known|;
      for i := 0 to |actors|
        invariant var rest := ActorUpdate(actors[i..], known, room, 1.0);
                  ActorUpdate(actors, known, MAX_ACTORS - |known|, 1.0)
                  == Increment(counted + rest.actors, overflow + rest.overflow)
      {
        assert actors[i..][1..] == actors[i + 1..];
        if actors[i] in known {
          counted := counted + [actors[i]];
          continue;
        }
        if room <= 0 {
          overflow := overflow + 1.0;
          continue;
        }
        room := room - 1;
        counted := counted + [actors[i]];
      }
      inc := Increment(counted, overflow);
    }

    /** The row's known actors: from the cache, or read from the collection and cached. */
    method KnownFor(identity: string, readFails: bool) returns (ok: bool, known: set<string>)
      modifies this`knownActors
      ensures ok <==> identity in old(knownActors) || !readFails
      ensures !ok ==> knownActors == old(knownActors)
      ensures ok ==>
                knownActors == Cached(old(Now()), identity) && identity in knownActors && known == knownActors[identity]
    {
      if identity in knownActors { return true, knownActors[identity]; }
      if readFails { return false, {}; }
      known := RowOf(log.rows, identity).actors.Keys;
      if |knownActors| >= MAX_CACHED_ROWS { knownActors := map[]; }
      knownActors := knownActors[identity := known];
      return true, known;
    }

    /** After a successful update: every actor counted is known. */
    method Remember(identity: string, actors: seq<string>)
      requires identity in knownActors
      modifies this`knownActors
      ensures knownActors == old(knownActors)[identity := old(knownActors)[identity] + Elements(actors)]
    {
      ghost var known := knownActors;
      assert Elements(actors[..0]) == {} && known[identity] + {} == known[identity];
      for i := 0 to |actors|
        invariant knownActors == known[identity := known[identity] + Elements(actors[..i])]
      {
        assert actors[..i + 1] == actors[..i] + [actors[i]];
        assert Elements(actors[..i + 1]) == Elements(actors[..i]) + {actors[i]};
        assert known[identity] + Elements(actors[..i]) + {actors[i]} == known[identity] + Elements(actors[..i + 1]);
        knownActors := knownActors[identity := knownActors[identity] + {actors[i]}];
      }
      assert actors[..|actors|] == actors;
    }

    method Fold(o: Occurrence, fault: Fault) returns (ok: bool)
      modifies this, log
      ensures Now() == Step(old(Now()), o, fault)
    {
      hide Cached, Apply, ActorUpdate, RowOf, Elements;
      if fault == Cancelled { return false; }
      var found, known := KnownFor(o.identity, fault == ReadFails);
      if !found { return false; }
      var inc := ComputeUpdate(Actors(o), known);
      if fault == IdFails { return false; }
      if fault != UpdateFails { log.Upsert(o.identity, inc); }
      if fault == UpdateFails || fault == UpdateLost {
        knownActors := knownActors - {o.identity};
        return false;
      }
      Remember(o.identity, inc.actors);
      return true;
    }
  }

  // ---- any run ----

  datatype Call = Call(occurrence: Occurrence, fault: Fault)

  function Run(s: State, calls: seq<Call>): State
    decreases |calls|
  {
    if calls == [] then s
    else Step(Run(s, calls[..|calls| - 1]), calls[|calls| - 1].occurrence, calls[|calls| - 1].fault)
  }

  /** Every cached actor set is the actor set of the stored row. */
  ghost predicate Coherent(s: State) {
    forall id | id in s.known :: s.known[id] == RowOf(s.rows, id).actors.Keys
  }

  lemma {:induction false} BumpKeys(counts: map<string, real>, actors: seq<string>, times: real)
    ensures Bump(counts, actors, times).Keys == counts.Keys + Elements(actors)
    decreases |actors|
  {
    if actors != [] {
      var k := actors[0];
      BumpKeys(counts[k := times + if k in counts then counts[k] else 0.0], actors[1..], times);
      assert actors == [k] + actors[1..];
    }
  }

  lemma CachingStaysCoherent(s: State, id: string)
    requires Coherent(s)
    ensures Coherent(State(Cached(s, id), s.rows)) && id in Cached(s, id)
  {}

  lemma WrittenActors(rows: Rows, o: Occurrence, inc: Increment)
    ensures RowOf(Written(rows, o, inc), o.identity).actors.Keys
            == RowOf(rows, o.identity).actors.Keys + Elements(inc.actors)
    ensures forall id | id != o.identity :: RowOf(Written(rows, o, inc), id) == RowOf(rows, id)
  {
    BumpKeys(RowOf(rows, o.identity).actors, inc.actors, 1.0);
  }

  lemma UpdateStaysCoherent(known: Cache, rows: Rows, o: Occurrence, fault: Fault)
    requires Coherent(State(known, rows)) && o.identity in known
    ensures Coherent(Update(known, rows, o, fault))
  {
    WrittenActors(rows, o, Planned(known[o.identity], o));
    hide Planned, Written, RowOf, Elements;
  }

  lemma StepStaysCoherent(s: State, o: Occurrence, fault: Fault)
    requires Coherent(s)
    ensures Coherent(Step(s, o, fault))
  {
    CachingStaysCoherent(s, o.identity);
    hide Coherent, Cached, Update;
    if !(fault == Cancelled || (fault == ReadFails && o.identity !in s.known)) {
      UpdateStaysCoherent(Cached(s, o.identity), s.rows, o, fault);
    }
  }

  /** In any run, whatever fails, no cached actor set goes stale. */
  lemma {:induction false} CacheNeverGoesStale(s: State, calls: seq<Call>)
    requires Coherent(s)
    ensures Coherent(Run(s, calls))
    decreases |calls|
  {
    if calls != [] {
      CacheNeverGoesStale(s, calls[..|calls| - 1]);
      StepStaysCoherent(Run(s, calls[..|calls| - 1]), calls[|calls| - 1].occurrence, calls[|calls| - 1].fault);
    }
  }

  // ---- the cap ----

  function Max(a: int, b: int): int {
    if a > b then a else b
  }

  lemma ElementsOfMore(actor: string, rest: seq<string>)
    ensures Elements([actor] + rest) == {actor} + Elements(rest)
  {}

  lemma {:induction false} NewActorsFit(actors: seq<string>, known: set<string>, room: int)
    ensures |known + Elements(ActorUpdate(actors, known, room, 1.0).actors)| <= |known| + Max(room, 0)
    decreases |actors|
  {
    if actors == [] {
      assert known + {} == known;
    } else {
      var admitted := actors[0] !in known && room > 0;
      var rest := ActorUpdate(actors[1..], known, if admitted then room - 1 else room, 1.0).actors;
      NewActorsFit(actors[1..], known, if admitted then room - 1 else room);
      ElementsOfMore(actors[0], rest);
      hide Elements;
      if admitted {
        assert known + Elements([actors[0]] + rest) == (known + Elements(rest)) + {actors[0]};
      } else {
        assert actors[0] in known ==> known + Elements([actors[0]] + rest) == known + Elements(rest);
      }
    }
  }

  /** Whether the update of this call reaches the collection. */
  predicate Applied(s: State, o: Occurrence, fault: Fault) {
    fault == Fine || fault == UpdateLost || (fault == ReadFails && o.identity in s.known)
  }

  /** With a coherent cache one call applies the increment planned from the stored row itself, or nothing. */
  lemma StepRow(s: State, o: Occurrence, fault: Fault, id: string)
    requires Coherent(s)
    ensures RowOf(Step(s, o, fault).rows, id) ==
            if Applied(s, o, fault) && id == o.identity
            then Apply(RowOf(s.rows, id), Planned(RowOf(s.rows, id).actors.Keys, o)) else RowOf(s.rows, id)
  {
    CachingStaysCoherent(s, o.identity);
    hide Planned, Apply;
  }

  lemma RowCap(r: LogRow, o: Occurrence)
    ensures |Apply(r, Planned(r.actors.Keys, o)).actors| <= Max(MAX_ACTORS, |r.actors|)
  {
    var inc := Planned(r.actors.Keys, o);
    BumpKeys(r.actors, inc.actors, 1.0);
    NewActorsFit(Actors(o), r.actors.Keys, MAX_ACTORS - |r.actors.Keys|);
    hide ActorUpdate, Elements, Actors;
    assert |r.actors| == |r.actors.Keys| && |Apply(r, inc).actors| == |Apply(r, inc).actors.Keys|;
  }

  /** A call never takes a row above the cap, and never grows a row that is above it. */
  lemma CapHolds(s: State, o: Occurrence, fault: Fault, id: string)
    requires Coherent(s)
    ensures |RowOf(Step(s, o, fault).rows, id).actors| <= Max(MAX_ACTORS, |RowOf(s.rows, id).actors|)
  {
    StepRow(s, o, fault, id);
    RowCap(RowOf(s.rows, id), o);
    hide Step, Apply, Planned, RowOf, Coherent;
  }

  /** A row that starts within the cap stays within it through any run. */
  lemma {:induction false} RowsStayWithinCap(s: State, calls: seq<Call>, id: string)
    requires Coherent(s) && |RowOf(s.rows, id).actors| <= MAX_ACTORS
    ensures |RowOf(Run(s, calls).rows, id).actors| <= MAX_ACTORS
    decreases |calls|
  {
    if calls != [] {
      RowsStayWithinCap(s, calls[..|calls| - 1], id);
      CacheNeverGoesStale(s, calls[..|calls| - 1]);
      CapHolds(Run(s, calls[..|calls| - 1]), calls[|calls| - 1].occurrence, calls[|calls| - 1].fault, id);
    }
  }

  lemma ActorsDiffer(o: Occurrence)
    ensures |Actors(o)| == 2 ==> Actors(o)[0] != Actors(o)[1]
    ensures |Actors(o)| <= 2
  {
    if |Actors(o)| == 2 {
      assert Actors(o)[0][0] == 'u' && Actors(o)[1][0] == 'i';
    }
  }

  lemma {:induction false} CountedAreActors(actors: seq<string>, known: set<string>, room: int)
    ensures Elements(ActorUpdate(actors, known, room, 1.0).actors) <= Elements(actors)
    ensures ActorUpdate(actors, known, room, 1.0).overflow >= 0.0
    decreases |actors|
  {
    if actors != [] {
      CountedAreActors(actors[1..], known, room);
      CountedAreActors(actors[1..], known, room - 1);
      assert actors == [actors[0]] + actors[1..];
    }
  }

  lemma AddOne(known: set<string>, rest: seq<string>, a: string)
    ensures known + Elements([a] + rest) == known + Elements(rest) + {a}
  {}

  lemma {:induction false} OverflowMeansNoRoom(actors: seq<string>, known: set<string>, room: int)
    requires forall i, j | 0 <= i < j < |actors| :: actors[i] != actors[j]
    requires ActorUpdate(actors, known, room, 1.0).overflow > 0.0
    ensures |known + Elements(ActorUpdate(actors, known, room, 1.0).actors)| >= |known| + Max(room, 0)
    decreases |actors|
  {
    var a, rest := actors[0], actors[1..];
    var admitted := a !in known && room > 0;
    var counted := ActorUpdate(rest, known, if admitted then room - 1 else room, 1.0).actors;
    CountedAreActors(rest, known, if admitted then room - 1 else room);
    assert a !in rest;
    AddOne(known, counted, a);
    if a !in known && room <= 0 {
      SubsetSize(known, known + Elements(counted));
    } else {
      OverflowMeansNoRoom(rest, known, if admitted then room - 1 else room);
      assert admitted ==> a !in known + Elements(counted);
      assert a in known ==> known + Elements(counted) + {a} == known + Elements(counted);
      hide ActorUpdate, Elements;
    }
  }

  lemma {:induction false} SubsetSize(a: set<string>, b: set<string>)
    requires a <= b
    ensures |a| <= |b|
  {
    assert b == a + (b - a);
  }

  lemma RowFull(r: LogRow, o: Occurrence)
    requires Apply(r, Planned(r.actors.Keys, o)).overflow > r.overflow
    ensures |Apply(r, Planned(r.actors.Keys, o)).actors| >= MAX_ACTORS
  {
    var inc := Planned(r.actors.Keys, o);
    ActorsDiffer(o);
    OverflowMeansNoRoom(Actors(o), r.actors.Keys, MAX_ACTORS - |r.actors.Keys|);
    BumpKeys(r.actors, inc.actors, 1.0);
    hide ActorUpdate, Elements, Actors;
    assert |r.actors| == |r.actors.Keys| && |Apply(r, inc).actors| == |Apply(r, inc).actors.Keys|;
  }

  /** An actor goes to the overflow only when the row is left with a full table. */
  lemma OverflowOnlyWhenFull(s: State, o: Occurrence, fault: Fault, id: string)
    requires Coherent(s)
    requires RowOf(Step(s, o, fault).rows, id).overflow > RowOf(s.rows, id).overflow
    ensures |RowOf(Step(s, o, fault).rows, id).actors| >= MAX_ACTORS
  {
    StepRow(s, o, fault, id);
    hide Step, Apply, Planned, RowOf, Coherent;
    RowFull(RowOf(s.rows, id), o);
  }

  // ---- counting ----

  /** Everything a row says it counted for actors. */
  ghost function Mentioned(r: LogRow): real {
    MapSum(r.actors) + r.overflow
  }

  function Product(times: real, n: nat): real {
    times * n as real
  }

  lemma OneMoreTimes(times: real, n: nat)
    ensures Product(times, n + 1) == times + Product(times, n)
  {}

  lemma {:induction false} BumpSum(counts: map<string, real>, actors: seq<string>, times: real)
    ensures MapSum(Bump(counts, actors, times)) == MapSum(counts) + Product(times, |actors|)
    decreases |actors|
  {
    hide MapSum, Product;
    if actors == [] {
      NoTimes(times);
    } else {
      var k := actors[0];
      var count := times + if k in counts then counts[k] else 0.0;
      MapSumUpdate(counts, k, count);
      BumpSum(counts[k := count], actors[1..], times);
      OneMoreTimes(times, |actors| - 1);
    }
  }

  lemma NoTimes(times: real)
    ensures Product(times, 0) == 0.0
  {}

  lemma {:induction false} IncrementCoversActors(actors: seq<string>, known: set<string>, room: int)
    ensures var inc := ActorUpdate(actors, known, room, 1.0);
            |inc.actors| as real + inc.overflow == |actors| as real
    decreases |actors|
  {
    if actors != [] {
      IncrementCoversActors(actors[1..], known, room);
      IncrementCoversActors(actors[1..], known, room - 1);
    }
  }

  lemma RowCounts(r: LogRow, known: set<string>, o: Occurrence)
    ensures Apply(r, Planned(known, o)).count == r.count + 1.0
    ensures Mentioned(Apply(r, Planned(known, o))) == Mentioned(r) + |Actors(o)| as real
  {
    BumpSum(r.actors, Planned(known, o).actors, 1.0);
    IncrementCoversActors(Actors(o), known, MAX_ACTORS - |known|);
    hide Actors, ActorUpdate;
  }

  /** One call adds one to its row's count and its actors to the row's tallies if its update is
      applied, reported or not, and otherwise changes no row; other rows never change. */
  lemma StepCounts(s: State, o: Occurrence, fault: Fault, id: string)
    requires Coherent(s)
    ensures Applied(s, o, fault) && id == o.identity ==>
              RowOf(Step(s, o, fault).rows, id).count == RowOf(s.rows, id).count + 1.0
              && Mentioned(RowOf(Step(s, o, fault).rows, id)) == Mentioned(RowOf(s.rows, id)) + |Actors(o)| as real
    ensures !(Applied(s, o, fault) && id == o.identity) ==> RowOf(Step(s, o, fault).rows, id) == RowOf(s.rows, id)
  {
    StepRow(s, o, fault, id);
    RowCounts(RowOf(s.rows, id), RowOf(s.rows, id).actors.Keys, o);
    hide *;
  }

  /** The applied calls of a run for one row, and the actors they mentioned. */
  function AppliedCalls(s: State, calls: seq<Call>, id: string): real
    decreases |calls|
  {
    if calls == [] then 0.0
    else
      var c := calls[|calls| - 1];
      AppliedCalls(s, calls[..|calls| - 1], id)
      + if c.occurrence.identity == id && Applied(Run(s, calls[..|calls| - 1]), c.occurrence, c.fault) then 1.0 else 0.0
  }

  function ActorsMentioned(s: State, calls: seq<Call>, id: string): real
    decreases |calls|
  {
    if calls == [] then 0.0
    else
      var c := calls[|calls| - 1];
      ActorsMentioned(s, calls[..|calls| - 1], id)
      + if c.occurrence.identity == id && Applied(Run(s, calls[..|calls| - 1]), c.occurrence, c.fault)
        then |Actors(c.occurrence)| as real else 0.0
  }

  lemma RunExtends(s: State, calls: seq<Call>, most: seq<Call>, c: Call, id: string)
    requires calls != [] && most == calls[..|calls| - 1] && c == calls[|calls| - 1]
    ensures Run(s, calls) == Step(Run(s, most), c.occurrence, c.fault)
    ensures Applied(Run(s, most), c.occurrence, c.fault) && id == c.occurrence.identity ==>
              AppliedCalls(s, calls, id) == AppliedCalls(s, most, id) + 1.0
              && ActorsMentioned(s, calls, id) == ActorsMentioned(s, most, id) + |Actors(c.occurrence)| as real
    ensures !(Applied(Run(s, most), c.occurrence, c.fault) && id == c.occurrence.identity) ==>
              AppliedCalls(s, calls, id) == AppliedCalls(s, most, id)
                && ActorsMentioned(s, calls, id) == ActorsMentioned(s, most, id)
  {
    hide Step, Actors, Applied;
  }

  /** Over any run a row's count grows by the updates applied to it, and its actor counts plus
      overflow by the actors those updates mentioned. */
  lemma {:induction false} RunCounts(s: State, calls: seq<Call>, id: string)
    requires Coherent(s)
    ensures RowOf(Run(s, calls).rows, id).count == RowOf(s.rows, id).count + AppliedCalls(s, calls, id)
    ensures Mentioned(RowOf(Run(s, calls).rows, id)) == Mentioned(RowOf(s.rows, id)) + ActorsMentioned(s, calls, id)
    decreases |calls|
  {
    if calls != [] {
      var most, c := calls[..|calls| - 1], calls[|calls| - 1];
      RunCounts(s, most, id);
      CacheNeverGoesStale(s, most);
      RunExtends(s, calls, most, c, id);
      hide *;
      StepCounts(Run(s, most), c.occurrence, c.fault, id);
    }
  }

  // ---- one call, actor by actor ----

  function CountIn(r: LogRow, actor: string): real {
    if actor in r.actors then r.actors[actor] else 0.0
  }

  function UserActor(o: Occurrence): seq<string> {
    if o.user == "" then [] else ["user:" + o.user]
  }

  function AddressActor(o: Occurrence): seq<string> {
    match o.address
    case NoAddress => []
    case V4(v) => ["ip:" + v]
    case V6(v) => ["ip:" + v]
  }

  /** Of at most one actor wanted, those a row counts that holds the actors `held`: one it knows, or a new one while
      it holds fewer than fifty. */
  function Counted(held: set<string>, wanted: seq<string>): seq<string> {
    if wanted != [] && (wanted[0] in held || |held| < 50) then wanted else []
  }

  lemma ActorsAre(o: Occurrence)
    ensures Actors(o) == UserActor(o) + AddressActor(o)
    ensures |UserActor(o)| <= 1 && |AddressActor(o)| <= 1
    ensures UserActor(o) != [] && AddressActor(o) != [] ==> UserActor(o)[0] != AddressActor(o)[0]
  {
    assert "user" + ":" == "user:" && "ip" + ":" == "ip:";
    ActorsDiffer(o);
  }

  lemma UpdateOfOne(wanted: seq<string>, known: set<string>, room: int)
    requires |wanted| <= 1
    ensures ActorUpdate(wanted, known, room, 1.0)
            == if wanted == [] then Increment([], 0.0)
               else if wanted[0] in known || room > 0 then Increment(wanted, 0.0) else Increment([], 1.0)
  {
    if wanted != [] {
      assert wanted == [wanted[0]] && wanted[1..] == [] && [wanted[0]] + [] == wanted;
      assert ActorUpdate([], known, room, 1.0) == ActorUpdate([], known, room - 1, 1.0) == Increment([], 0.0);
    }
  }

  lemma UpdateOfTwo(x: seq<string>, y: seq<string>, known: set<string>, room: int)
    requires |x| <= 1 && |y| <= 1
    ensures var first, second := ActorUpdate(x, known, room, 1.0),
              ActorUpdate(y, known, if x == [] || x[0] in known || room <= 0 then room else room - 1, 1.0);
            ActorUpdate(x + y, known, room, 1.0)
            == Increment(first.actors + second.actors, first.overflow + second.overflow)
  {
    UpdateOfOne(x, known, room);
    var rest := ActorUpdate(y, known, room, 1.0);
    assert [] + rest.actors == rest.actors;
    if x == [] {
      assert x + y == y;
    } else {
      assert (x + y)[0] == x[0] && (x + y)[1..] == y && x == [x[0]];
    }
  }

  lemma {:induction false} BumpOnce(counts: map<string, real>, actors: seq<string>)
    requires forall i, j | 0 <= i < j < |actors| :: actors[i] != actors[j]
    ensures forall k :: k in Bump(counts, actors, 1.0) <==> k in counts || k in actors
    ensures forall k | k in Bump(counts, actors, 1.0) ::
              Bump(counts, actors, 1.0)[k]
              == (if k in counts then counts[k] else 0.0) + if k in actors then 1.0 else 0.0
    decreases |actors|
  {
    if actors != [] {
      var k := actors[0];
      BumpOnce(counts[k := 1.0 + if k in counts then counts[k] else 0.0], actors[1..]);
      assert forall x :: x in actors <==> x == k || x in actors[1..];
    }
  }

  /** What an occurrence counts on a row: its user, and then its address if the user left room. */
  lemma PlannedCounts(held: set<string>, o: Occurrence)
    ensures var user := Counted(held, UserActor(o));
            var address := Counted(held + Elements(user), AddressActor(o));
            Planned(held, o) ==
            Increment(user + address, (|UserActor(o)| - |user| + |AddressActor(o)| - |address|) as real)
  {
    ActorsAre(o);
    hide Actors, UserActor, AddressActor;
    var x, y, room := UserActor(o), AddressActor(o), 50 - |held|;
    UpdateOfTwo(x, y, held, room);
    UpdateOfOne(x, held, room);
    RoomLeft(held, x, y);
    UpdateOfOne(y, held, if x == [] || x[0] in held || room <= 0 then room else room - 1);
    hide ActorUpdate, Elements;
  }

  lemma RoomLeft(held: set<string>, x: seq<string>, y: seq<string>)
    requires |x| <= 1 && |y| <= 1 && (x != [] && y != [] ==> x[0] != y[0])
    ensures var user, room := Counted(held, x), 50 - |held|;
            |held + Elements(user)| == 50 - if x == [] || x[0] in held || room <= 0 then room else room - 1
    ensures y != [] ==> (y[0] in held + Elements(Counted(held, x)) <==> y[0] in held)
  {
    var user := Counted(held, x);
    if user == [] {
      assert held + Elements(user) == held;
    } else if x[0] in held {
      assert held + Elements(user) == held;
    } else {
      assert held + Elements(user) == held + {x[0]} && |held + {x[0]}| == |held| + 1;
    }
  }

  lemma CountedDiffer(held: set<string>, o: Occurrence)
    ensures var user := Counted(held, UserActor(o));
            var actors := user + Counted(held + Elements(user), AddressActor(o));
            forall i, j | 0 <= i < j < |actors| :: actors[i] != actors[j]
  {
    ActorsAre(o);
    hide Actors, UserActor, AddressActor;
  }

  /** After a call whose update was applied the row counts one more, its user and its address count one more each
      if the row knows them or has room, and the others are overflow. */
  lemma RowGainsActors(s: State, o: Occurrence, fault: Fault)
    requires Coherent(s) && Applied(s, o, fault)
    ensures var r, r' := RowOf(s.rows, o.identity), RowOf(Step(s, o, fault).rows, o.identity);
            var user := Counted(r.actors.Keys, UserActor(o));
            var address := Counted(r.actors.Keys + Elements(user), AddressActor(o));
            && r'.count == r.count + 1.0
            && (forall k :: k in r'.actors <==> k in r.actors || k in user + address)
            && (forall k :: CountIn(r', k) == CountIn(r, k) + if k in user + address then 1.0 else 0.0)
            && r'.overflow == r.overflow + (|UserActor(o)| - |user| + |AddressActor(o)| - |address|) as real
  {
    StepRow(s, o, fault, o.identity);
    var r := RowOf(s.rows, o.identity);
    PlannedCounts(r.actors.Keys, o);
    CountedDiffer(r.actors.Keys, o);
    hide Step, Planned, Counted, UserActor, AddressActor, RowOf, Coherent, Applied, Elements;
    BumpOnce(r.actors, Planned(r.actors.Keys, o).actors);
    hide Bump;
  }

  // ---- the cache ----

  /** The cache holds at most 500 rows, whatever happens. */
  lemma {:induction false} CacheIsBounded(s: State, calls: seq<Call>)
    requires |s.known| <= 500
    ensures |Run(s, calls).known| <= 500
    decreases |calls|
  {
    if calls != [] {
      var before, c := Run(s, calls[..|calls| - 1]), calls[|calls| - 1];
      CacheIsBounded(s, calls[..|calls| - 1]);
      hide Planned, RowOf, Written;
      StepBoundsCache(before, c.occurrence, c.fault);
    }
  }

  lemma StepBoundsCache(s: State, o: Occurrence, fault: Fault)
    requires |s.known| <= 500
    ensures |Step(s, o, fault).known| <= 500
  {
    hide Planned, RowOf, Written;
    var cached := Cached(s, o.identity);
    assert |cached| <= 500;
    if !(fault == Cancelled || (fault == ReadFails && o.identity !in s.known)) {
      var after := Update(cached, s.rows, o, fault).known;
      assert after.Keys <= cached.Keys;
      SubsetSize(after.Keys, cached.Keys);
      assert |after.Keys| == |after| && |cached.Keys| == |cached|;
    }
  }

  /** A row is forgotten exactly when its own update failed, or when the cache was full and another row was new to it;
      and a row is remembered when its update went through. */
  lemma ForgottenExactlyWhen(s: State, o: Occurrence, fault: Fault, id: string)
    requires id in s.known || id == o.identity
    ensures id in Step(s, o, fault).known <==>
              if fault == Cancelled || (fault == ReadFails && o.identity !in s.known) then id in s.known
              else if id == o.identity then fault != UpdateFails && fault != UpdateLost
              else o.identity in s.known || |s.known| < 500
  {
    hide Planned, RowOf, Written;
  }
}
