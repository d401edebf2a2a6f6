/**
 The swimlane-structure migration (internal/migrations/structure.go): its check, its
 four-phase run over snapshots that go stale, and what every run leaves behind.
 */
module SwimlaneStructure {
  import opened MigrationStore

  predicate Live(lane: Lane) {
    !lane.archived && !lane.template
  }

  predicate IsLiveOf(lanes: map<string, Lane>, id: string, b: string) {
    id in lanes && Live(lanes[id]) && Rendered(lanes[id].boardId) == b
  }

  /** The boards that have a live lane. */
  function LiveBoards(lanes: map<string, Lane>): set<string> {
    set id | id in lanes && Live(lanes[id]) :: Rendered(lanes[id].boardId)
  }

  function Lookup(m: map<string, string>, k: string): string {
    if k in m then m[k] else ""
  }

  /** owners: every lane, also archived and template ones, to its board. */
  function Owners(lanes: map<string, Lane>): map<string, string> {
    map id | id in lanes :: Rendered(lanes[id].boardId)
  }

  /** Where the dangling cards of one board go: a list and the lane it is stamped with, if any. */
  datatype Target = Target(listId: string, stamp: Ref)

  /** The snapshots one run works from. */
  datatype Plan = Plan(defaults: map<string, string>, owners: map<string, string>,
                       listIds: set<string>, targets: map<string, Target>)

  // ---- what a run does to one card ----

  predicate NeedsLane(c: Card, defaults: map<string, string>) {
    c.boardId.Is? && c.boardId.s in defaults && Blank(c.swimlaneId)
  }

  function FillLane(c: Card, defaults: map<string, string>): Card {
    if NeedsLane(c, defaults) then c.(swimlaneId := Is(defaults[c.boardId.s])) else c
  }

  predicate Dangles(c: Card, listIds: set<string>) {
    Usable(Rendered(c.listId)) && Rendered(c.listId) !in listIds
  }

  /** structuralTruthy of the target's swimlaneId picks the stamp, else the board's default. */
  function RescueLane(b: string, p: Plan): string
    requires b in p.targets
  {
    var stamp := p.targets[b].stamp;
    if stamp.Is? && stamp.s != "" then stamp.s else Lookup(p.defaults, b)
  }

  predicate Rescuable(c: Card, p: Plan) {
    c.boardId.Is? && c.boardId.s in p.targets && Dangles(c, p.listIds)
  }

  function Rescue(c: Card, p: Plan): Card {
    if Rescuable(c, p) then
      c.(listId := Is(p.targets[c.boardId.s].listId), swimlaneId := Is(RescueLane(c.boardId.s, p)))
    else c
  }

  /** An unarchived card whose lane is not owned by its board, when the board has another default. */
  predicate Foreign(c: Card, p: Plan) {
    && c.archived == No && c.boardId.Is? && c.swimlaneId.Is? && Usable(c.swimlaneId.s)
    && Lookup(p.owners, c.swimlaneId.s) != c.boardId.s
    && Lookup(p.defaults, c.boardId.s) !in {"", c.swimlaneId.s}
  }

  function MoveHome(c: Card, p: Plan): Card {
    if Foreign(c, p) then c.(swimlaneId := Is(Lookup(p.defaults, c.boardId.s))) else c
  }

  function Repair(c: Card, p: Plan): Card {
    MoveHome(Rescue(FillLane(c, p.defaults), p), p)
  }

  function RepairAll(cards: Cards, p: Plan): Cards {
    map id | id in cards :: Repair(cards[id], p)
  }

  // ---- what a run does to the store ----

  function LaneSorts(lanes: map<string, Lane>): map<string, Number> {
    map id | id in lanes :: lanes[id].sort
  }

  /** The live lanes, each with the board it belongs to. */
  function LiveLanes(lanes: map<string, Lane>): map<string, string> {
    map id | id in lanes && Live(lanes[id]) :: Rendered(lanes[id].boardId)
  }

  function ListSorts(lists: map<string, Column>): map<string, Number> {
    map id | id in lists :: lists[id].sort
  }

  function ListBoards(lists: map<string, Column>): map<string, string> {
    map id | id in lists :: Rendered(lists[id].boardId)
  }

  /** `defaults` maps exactly the boards in `done` and the boards in `live`, which have a live lane, to a
      live lane of theirs: an old one if there is one, else the one lane created for that board. */
  ghost predicate DefaultsFor(before: map<string, Lane>, live: set<string>, done: set<string>,
                              lanes: map<string, Lane>, defaults: map<string, string>) {
    && defaults.Keys == done + live
    && (forall id | id in before :: id in lanes && lanes[id] == before[id])
    && (forall b | b in defaults :: IsLiveOf(lanes, defaults[b], b))
    && (forall b | b in live :: defaults[b] in before)
    && (forall id | id in lanes && id !in before :: IsNewDefault(live, done, id, lanes[id], defaults))
  }

  ghost predicate IsNewDefault(live: set<string>, done: set<string>, id: string, lane: Lane,
                               defaults: map<string, string>)
  {
    && Usable(id) && lane.boardId.Is?
    && var b := lane.boardId.s;
       b in done - live && b in defaults && defaults[b] == id && lane == DefaultLane(b)
  }

  function DefaultLane(b: string): Lane {
    Lane(Is(b), false, false, Num(0.0))
  }

  /** The boards, by rendered id, of the cards whose list does not exist; a card without boardId has none. */
  function DanglingBoards(cards: Cards, listIds: set<string>): set<string> {
    set id | id in cards && cards[id].boardId != Missing && Dangles(cards[id], listIds) :: Rendered(cards[id].boardId)
  }

  function UsedLists(cards: Cards): set<string> {
    set id | id in cards :: Rendered(cards[id].listId)
  }

  function ListedBoards(lists: map<string, Column>): set<string> {
    set id | id in lists :: Rendered(lists[id].boardId)
  }

  /** Old lists stay; a target is a list of its board; a list is new only as the target of a board
      in `dangling` that is not in `listed`. */
  ghost predicate TargetsFor(before: map<string, Column>, listed: set<string>, dangling: set<string>,
                             lists: map<string, Column>, p: Plan) {
    && listed <= p.targets.Keys
    && (forall id | id in before :: id in lists && lists[id] == before[id])
    && (forall b | b in p.targets :: IsTarget(lists, p.targets[b], b))
    && (forall id | id in lists && id !in before :: IsNewTarget(dangling - listed, id, lists[id], p))
  }

  predicate IsTarget(lists: map<string, Column>, t: Target, b: string) {
    t.listId in lists && Rendered(lists[t.listId].boardId) == b && lists[t.listId].swimlaneId == t.stamp
  }

  predicate IsNewTarget(allowed: set<string>, id: string, list: Column, p: Plan) {
    && Usable(id) && list.boardId.Is?
    && var b := list.boardId.s;
       b in allowed && b in p.targets && p.targets[b].listId == id && list == RescuedData(b, Lookup(p.defaults, b))
  }

  function RescuedData(b: string, lane: string): Column {
    Column(Is(b), Is(lane), Is("Rescued Data"), false, false, Num(0.0), NaN)
  }

  /** The list each board's dangling cards go to, as a map from boards. */
  function TargetLists(p: Plan): map<string, string> {
    map b | b in p.targets :: p.targets[b].listId
  }

  /** Everything a completed run promises about the store it found and the store it left. */
  ghost predicate Repaired(pre: Store, post: Store, p: Plan) {
    && post.boards == pre.boards
    && p.owners == Owners(pre.lanes) && p.listIds == pre.lists.Keys
    && DefaultsFor(pre.lanes, LiveBoards(pre.lanes), pre.boards.Keys, post.lanes, p.defaults)
    && LeastSort(LaneSorts(pre.lanes), LiveLanes(pre.lanes), p.defaults)
    && TargetsFor(pre.lists, ListedBoards(pre.lists), DanglingBoards(pre.cards, p.listIds), post.lists, p)
    && p.targets.Keys == ListedBoards(pre.lists) + DanglingBoards(pre.cards, p.listIds)
    && post.lists.Keys - pre.lists.Keys !! UsedLists(pre.cards)
    && LeastSort(ListSorts(pre.lists), ListBoards(pre.lists), TargetLists(p))
    && post.cards == RepairAll(pre.cards, p)
  }

  function FillAll(cards: Cards, p: Plan): Cards {
    map id | id in cards :: FillLane(cards[id], p.defaults)
  }

  function RescueAll(cards: Cards, p: Plan): Cards {
    map id | id in cards :: Rescue(FillLane(cards[id], p.defaults), p)
  }

  /** Fixed: the lanes created and the modifications of the three card phases. */
  ghost function FixedBy(pre: Store, post: Store, p: Plan): int {
    |post.lanes| - |pre.lanes| + Changed(pre.cards, FillAll(pre.cards, p))
      + Changed(FillAll(pre.cards, p), RescueAll(pre.cards, p))
      + Changed(RescueAll(pre.cards, p), RepairAll(pre.cards, p))
  }

  // ---- the migration ----

  method StructuralLanes(db: Database) returns (first: map<string, string>, owners: map<string, string>)
    ensures owners == Owners(db.lanes)
    ensures first.Keys == LiveBoards(db.lanes)
    ensures forall b | b in first :: IsLiveOf(db.lanes, first[b], b)
    ensures LeastSort(LaneSorts(db.lanes), LiveLanes(db.lanes), first)
  {
    var live := LiveLanes(db.lanes);
    first := FirstBySort(LaneSorts(db.lanes), live);
    owners := Owners(db.lanes);
    forall b ensures b in first <==> b in LiveBoards(db.lanes) {
      if b in LiveBoards(db.lanes) {
        var id :| id in db.lanes && Live(db.lanes[id]) && Rendered(db.lanes[id].boardId) == b;
        assert id in live && live[id] == b;
      }
    }
  }

  lemma AddingDefault(before: map<string, Lane>, live: set<string>, done: set<string>, lanes: map<string, Lane>,
                      defaults: map<string, string>, b: string, id: string)
    requires DefaultsFor(before, live, done, lanes, defaults)
    requires b !in defaults && id !in lanes && Usable(id)
    ensures DefaultsFor(before, live, done + {b}, lanes[id := DefaultLane(b)], defaults[b := id])
  {}

  /** Gives one board a new default lane, unless it has a default. */
  method CreateDefaultLane(db: Database, ghost before: map<string, Lane>, ghost live: set<string>,
                           ghost done: set<string>, known: map<string, string>, b: string)
    returns (defaults: map<string, string>, created: nat)
    requires DefaultsFor(before, live, done, db.lanes, known)
    modifies db`lanes
    ensures DefaultsFor(before, live, done + {b}, db.lanes, defaults)
    ensures forall g | g in known :: g in defaults && defaults[g] == known[g]
    ensures |db.lanes| == |old(db.lanes)| + created
  {
    if b in known { return known, 0; }
    var id := FreshId(db.lanes.Keys);
    AddingDefault(before, live, done, db.lanes, known, b, id);
    db.lanes := db.lanes[id := DefaultLane(b)];
    return known[b := id], 1;
  }

  lemma NoDefaultAdded(lanes: map<string, Lane>, first: map<string, string>)
    requires first.Keys == LiveBoards(lanes) && forall b | b in first :: IsLiveOf(lanes, first[b], b)
    ensures DefaultsFor(lanes, LiveBoards(lanes), {}, lanes, first)
  {
    hide LiveBoards;
  }

  /** Gives every board without a live lane a new default lane. */
  method CreateDefaultLanes(db: Database, first: map<string, string>)
    returns (defaults: map<string, string>, created: nat)
    requires first.Keys == LiveBoards(db.lanes)
    requires forall b | b in first :: IsLiveOf(db.lanes, first[b], b)
    modifies db`lanes
    ensures DefaultsFor(old(db.lanes), LiveBoards(old(db.lanes)), db.boards.Keys, db.lanes, defaults)
    ensures forall b | b in first :: b in defaults && defaults[b] == first[b]
    ensures created == |db.lanes| - |old(db.lanes)|
  {
    NoDefaultAdded(db.lanes, first);
    hide *;
    var boards := Enumerate(db.boards.Keys);
    ghost var before, live, done := db.lanes, LiveBoards(db.lanes), {};
    defaults, created := first, 0;
    for i := 0 to |boards|
      invariant forall b :: b in done <==> b in boards[..i]
      invariant DefaultsFor(before, live, done, db.lanes, defaults)
      invariant forall b | b in first :: b in defaults && defaults[b] == first[b]
      invariant created == |db.lanes| - |before|
    {
      NewAt(boards, i);
      var n;
      defaults, n := CreateDefaultLane(db, before, live, done, defaults, boards[i]);
      done, created := done + {boards[i]}, created + n;
    }
    assert boards[..|boards|] == boards;
    assert done == db.boards.Keys;
  }

  method FillMissingLanes(db: Database, defaults: map<string, string>) returns (fixed: nat)
    modifies db`cards
    ensures db.cards == map id | id in old(db.cards) :: FillLane(old(db.cards)[id], defaults)
    ensures fixed == Changed(old(db.cards), db.cards)
  {
    ghost var start := db.cards;
    var boards := Enumerate(defaults.Keys);
    fixed := 0;
    for i := 0 to |boards|
      invariant db.cards.Keys == start.Keys
      invariant forall id | id in start :: db.cards[id] ==
                  if NeedsLane(start[id], defaults) && start[id].boardId.s in boards[..i]
                  then FillLane(start[id], defaults) else start[id]
      invariant fixed == Changed(start, db.cards)
    {
      var b := boards[i];
      var lane := defaults[b];
      ghost var before := db.cards;
      var modified := db.UpdateCards(
        (c: Card) => c.boardId == Is(b) && Blank(c.swimlaneId), (c: Card) => c.(swimlaneId := Is(lane)));
      assert b !in boards[..i];
      assert boards[..i + 1] == boards[..i] + [b];
      ChangedAdds(start, before, db.cards);
      fixed := fixed + modified;
    }
  }

  // ---- phase two: cards in lists that do not exist ----

  predicate RescuedYet(c: Card, p: Plan, lists: set<string>, bad: string, boards: set<string>) {
    Dangles(c, p.listIds) && c.boardId.Is?
    && (c.listId.s in lists || (c.listId.s == bad && c.boardId.s in boards))
  }

  /** The cards of the lists in `lists`, and those of `bad` on the boards in `boards`, are rescued; no others. */
  ghost predicate RescuedSoFar(start: Cards, cards: Cards, p: Plan, lists: set<string>, bad: string,
                               boards: set<string>)
  {
    && cards.Keys == start.Keys
    && forall id | id in start ::
         if RescuedYet(start[id], p, lists, bad, boards)
         then start[id].boardId.s in p.targets && cards[id] == Rescue(start[id], p)
         else cards[id] == start[id]
  }

  ghost predicate CoveredSoFar(start: Cards, p: Plan, lists: set<string>, bad: string, boards: set<string>) {
    forall id | id in start && start[id].boardId != Missing && Dangles(start[id], p.listIds)
        && (start[id].listId.s in lists || (start[id].listId.s == bad && Rendered(start[id].boardId) in boards)) ::
      Rendered(start[id].boardId) in p.targets
  }

  /** What stays fixed during phase two: the lists and cards it starts with and the plan it starts from. */
  datatype PhaseTwo = PhaseTwo(before: map<string, Column>, listed: set<string>, start: Cards, dangling: set<string>,
                               base: Plan, avoid: set<string>)

  ghost predicate Extends(p: Plan, p': Plan) {
    p' == p.(targets := p'.targets) && forall b | b in p.targets :: b in p'.targets && p'.targets[b] == p.targets[b]
  }

  /** The invariant of phase two's nested loops. */
  ghost predicate Rescuing(g: PhaseTwo, lists: map<string, Column>, cards: Cards, p: Plan,
                           done: set<string>, bad: string, boards: set<string>, fixed: int) {
    && Extends(g.base, p) && p.targets.Keys <= g.listed + g.dangling
    && TargetsFor(g.before, g.listed, g.dangling, lists, p)
    && (forall id | id in lists :: id in g.base.listIds || id !in g.avoid)
    && RescuedSoFar(g.start, cards, p, done, bad, boards)
    && CoveredSoFar(g.start, p, done, bad, boards)
    && fixed == Changed(g.start, cards)
  }

  function WithNewTarget(p: Plan, b: string, id: string): Plan {
    p.(targets := p.targets[b := Target(id, Is(Lookup(p.defaults, b)))])
  }

  lemma AddingTarget(before: map<string, Column>, listed: set<string>, dangling: set<string>,
                     lists: map<string, Column>, p: Plan, b: string, id: string)
    requires TargetsFor(before, listed, dangling, lists, p)
    requires b in dangling && b !in p.targets && id !in lists && Usable(id)
    ensures TargetsFor(before, listed, dangling, lists[id := RescuedData(b, Lookup(p.defaults, b))],
            WithNewTarget(p, b, id))
  {
    var lists', p' := lists[id := RescuedData(b, Lookup(p.defaults, b))], WithNewTarget(p, b, id);
    forall t | t in p'.targets ensures IsTarget(lists', p'.targets[t], t) {
      if t != b { assert IsTarget(lists, p.targets[t], t); }
    }
    forall l | l in lists' && l !in before ensures IsNewTarget(dangling - listed, l, lists'[l], p') {
      if l != id { assert IsNewTarget(dangling - listed, l, lists[l], p); }
    }
    hide IsTarget, IsNewTarget, RescuedData;
  }

  lemma NewTargetExtends(base: Plan, p: Plan, b: string, id: string)
    requires Extends(base, p) && b !in p.targets
    ensures Extends(base, WithNewTarget(p, b, id)) && Extends(p, WithNewTarget(p, b, id))
    ensures WithNewTarget(p, b, id).targets.Keys == p.targets.Keys + {b}
  {}

  lemma RescuedStays(start: Cards, cards: Cards, p: Plan, p': Plan, lists: set<string>, bad: string,
                     boards: set<string>)
    requires RescuedSoFar(start, cards, p, lists, bad, boards) && Extends(p, p')
    ensures RescuedSoFar(start, cards, p', lists, bad, boards)
  {}

  lemma CoveredStays(start: Cards, p: Plan, p': Plan, lists: set<string>, bad: string, boards: set<string>)
    requires CoveredSoFar(start, p, lists, bad, boards) && Extends(p, p')
    ensures CoveredSoFar(start, p', lists, bad, boards)
  {}

  lemma TargetAdded(g: PhaseTwo, lists: map<string, Column>, cards: Cards, p: Plan, done: set<string>, bad: string,
                    boards: set<string>, fixed: int, b: string, id: string)
    requires Rescuing(g, lists, cards, p, done, bad, boards, fixed)
    requires b in g.dangling && b !in p.targets && id !in lists && id !in g.avoid && Usable(id)
    ensures Rescuing(g, lists[id := RescuedData(b, Lookup(p.defaults, b))], cards, WithNewTarget(p, b, id), done, bad,
            boards, fixed)
  {
    NewTargetExtends(g.base, p, b, id);
    AddingTarget(g.before, g.listed, g.dangling, lists, p, b, id);
    RescuedStays(g.start, cards, p, WithNewTarget(p, b, id), done, bad, boards);
    CoveredStays(g.start, p, WithNewTarget(p, b, id), done, bad, boards);
    hide TargetsFor, Changed, RescuedSoFar, CoveredSoFar, RescuedData, Lookup, WithNewTarget, Extends;
  }

  /** The list for one board's dangling cards: a known one, or a new one named Rescued Data. */
  method EnsureTarget(db: Database, ghost g: PhaseTwo, ghost done: set<string>, ghost bad: string,
                      ghost boards: set<string>, ghost fixed: int, p: Plan, b: string, avoid: set<string>)
    returns (p': Plan)
    requires Rescuing(g, db.lists, db.cards, p, done, bad, boards, fixed) && b in g.dangling && g.avoid == avoid
    modifies db`lists
    ensures Rescuing(g, db.lists, db.cards, p', done, bad, boards, fixed) && b in p'.targets && p'.listIds == p.listIds
  {
    hide Rescuing;
    if b in p.targets { return p; }
    var id := FreshId(db.lists.Keys + avoid);
    TargetAdded(g, db.lists, db.cards, p, done, bad, boards, fixed, b, id);
    db.lists := db.lists[id := RescuedData(b, Lookup(p.defaults, b))];
    p' := WithNewTarget(p, b, id);
  }

  /** The effect of one UpdateMany of phase two on the invariant's card part. */
  lemma BoardRescued(start: Cards, cards: Cards, cards': Cards, p: Plan, done: set<string>, bad: string,
                     boards: set<string>, b: string)
    requires RescuedSoFar(start, cards, p, done, bad, boards)
    requires Usable(bad) && bad !in p.listIds && bad !in done && b !in boards && b in p.targets
    requires forall t | t in p.targets :: p.targets[t].listId != bad
    requires cards'.Keys == cards.Keys
    requires forall id | id in cards :: cards'[id] ==
               if cards[id].boardId == Is(b) && cards[id].listId == Is(bad)
               then cards[id].(listId := Is(p.targets[b].listId), swimlaneId := Is(RescueLane(b, p))) else cards[id]
    ensures RescuedSoFar(start, cards', p, done, bad, boards + {b})
    ensures Changed(start, cards') == Changed(start, cards) + Changed(cards, cards')
  {
    ChangedAdds(start, cards, cards');
  }

  /** One UpdateMany of phase two: the cards of list `bad` on board `b`. */
  method RescueBoard(db: Database, ghost g: PhaseTwo, ghost done: set<string>, ghost boards: set<string>,
                     ghost fixed: int, p: Plan, bad: string, b: string)
    returns (modified: nat)
    requires Rescuing(g, db.lists, db.cards, p, done, bad, boards, fixed)
    requires Usable(bad) && bad !in p.listIds && bad in g.avoid && bad !in done && b !in boards && b in p.targets
    modifies db`cards
    ensures Rescuing(g, db.lists, db.cards, p, done, bad, boards + {b}, fixed + modified)
  {
    assert forall t | t in p.targets :: p.targets[t].listId != bad;
    var target, lane := p.targets[b].listId, RescueLane(b, p);
    hide TargetsFor, RescuedSoFar, Changed;
    ghost var before := db.cards;
    modified := db.UpdateCards(
      (c: Card) => c.boardId == Is(b) && c.listId == Is(bad),
      (c: Card) => c.(listId := Is(target), swimlaneId := Is(lane)));
    BoardRescued(g.start, before, db.cards, p, done, bad, boards, b);
  }

  /** The boards that still have cards in list `bad` are those that had them at the start. */
  method BoardsInList(db: Database, ghost g: PhaseTwo, ghost done: set<string>, ghost fixed: int, ghost p: Plan,
                      bad: string)
    returns (bs: seq<string>)
    requires Rescuing(g, db.lists, db.cards, p, done, bad, {}, fixed)
    requires g.dangling == DanglingBoards(g.start, g.base.listIds)
    requires Usable(bad) && bad !in p.listIds && bad in g.avoid && bad !in done
    ensures forall b | b in bs :: b in g.dangling
    ensures Distinct(bs)
    ensures forall id | id in g.start && g.start[id].listId == Is(bad) && g.start[id].boardId != Missing ::
              Rendered(g.start[id].boardId) in bs
  {
    assert forall t | t in p.targets :: p.targets[t].listId != bad;
    forall id | id in g.start
      ensures db.cards[id].listId == Is(bad) <==> g.start[id].listId == Is(bad)
      ensures db.cards[id].listId == Is(bad) ==> db.cards[id] == g.start[id]
    {}
    hide TargetsFor, CoveredSoFar, Changed;
    bs := db.DistinctInCards((c: Card) => c.boardId, (c: Card) => c.listId == Is(bad));
  }

  lemma ListFinished(g: PhaseTwo, lists: map<string, Column>, cards: Cards, p: Plan, done: set<string>, bad: string,
                     boards: set<string>, fixed: int)
    requires Rescuing(g, lists, cards, p, done, bad, boards, fixed)
    requires forall id | id in g.start && g.start[id].listId == Is(bad) && g.start[id].boardId != Missing ::
               Rendered(g.start[id].boardId) in boards
    ensures Rescuing(g, lists, cards, p, done + {bad}, "", {}, fixed)
  {
    hide TargetsFor, Changed;
  }

  lemma ListStarted(g: PhaseTwo, lists: map<string, Column>, cards: Cards, p: Plan, done: set<string>, bad: string,
                    fixed: int)
    requires Rescuing(g, lists, cards, p, done, "", {}, fixed)
    ensures Rescuing(g, lists, cards, p, done, bad, {}, fixed)
  {
    hide TargetsFor, Changed;
  }

  /** The body of phase two for one list id that names no list: a target and an update per board. */
  method RescueList(db: Database, ghost g: PhaseTwo, ghost done: set<string>, ghost before: int, p: Plan, bad: string,
                    avoid: set<string>)
    returns (p': Plan, fixed: nat)
    requires Rescuing(g, db.lists, db.cards, p, done, "", {}, before)
    requires g.dangling == DanglingBoards(g.start, g.base.listIds) && g.avoid == avoid
    requires Usable(bad) && bad !in p.listIds && bad in avoid && bad !in done
    modifies db`lists, db`cards
    ensures Rescuing(g, db.lists, db.cards, p', done + {bad}, "", {}, before + fixed) && p'.listIds == p.listIds
  {
    hide Rescuing, DanglingBoards, Distinct;
    ListStarted(g, db.lists, db.cards, p, done, bad, before);
    var bs := BoardsInList(db, g, done, before, p, bad);
    p', fixed := p, 0;
    ghost var boards := {};
    for j := 0 to |bs|
      invariant Rescuing(g, db.lists, db.cards, p', done, bad, boards, before + fixed) && p'.listIds == p.listIds
      invariant forall b :: b in boards <==> b in bs[..j]
    {
      NewAt(bs, j);
      p' := EnsureTarget(db, g, done, bad, boards, before + fixed, p', bs[j], avoid);
      var modified := RescueBoard(db, g, done, boards, before + fixed, p', bad, bs[j]);
      fixed := fixed + modified;
      boards := boards + {bs[j]};
    }
    assert bs[..|bs|] == bs;
    ListFinished(g, db.lists, db.cards, p', done, bad, boards, before + fixed);
  }

  lemma AllListsFinished(g: PhaseTwo, lists: map<string, Column>, cards: Cards, p: Plan, done: set<string>, fixed: int)
    requires Rescuing(g, lists, cards, p, done, "", {}, fixed)
    requires g.dangling == DanglingBoards(g.start, g.base.listIds)
    requires g.base.targets.Keys == g.listed
    requires forall id | id in g.start && Dangles(g.start[id], g.base.listIds) :: Rendered(g.start[id].listId) in done
    ensures p.targets.Keys == g.listed + g.dangling
    ensures cards == map id | id in g.start :: Rescue(g.start[id], p)
    ensures Extends(g.base, p) && TargetsFor(g.before, g.listed, g.dangling, lists, p)
            && fixed == Changed(g.start, cards)
    ensures lists.Keys - g.base.listIds !! g.avoid
  {
    hide TargetsFor, Changed;
  }

  lemma NothingRescuedYet(g: PhaseTwo, lists: map<string, Column>)
    requires TargetsFor(g.before, g.listed, {}, lists, g.base)
    requires g.base.listIds == lists.Keys && g.base.targets.Keys == g.listed
    ensures Rescuing(g, lists, g.start, g.base, {}, "", {}, 0)
  {
    NothingChanged(g.start, g.start);
  }

  predicate NamesNoList(l: string, listIds: set<string>) {
    Usable(l) && l !in listIds
  }

  /** The outer loop of phase two. */
  method RescueLists(db: Database, ghost g: PhaseTwo, p: Plan, used: seq<string>, avoid: set<string>)
    returns (p': Plan, fixed: nat)
    requires Rescuing(g, db.lists, db.cards, p, {}, "", {}, 0)
    requires g.dangling == DanglingBoards(g.start, g.base.listIds)
    requires g.avoid == avoid && forall l | l in used :: l in avoid
    requires Distinct(used)
    modifies db`lists, db`cards
    ensures Rescuing(g, db.lists, db.cards, p', (set l | l in used && NamesNoList(l, p.listIds)), "", {}, fixed)
  {
    hide Rescuing, DanglingBoards;
    p', fixed := p, 0;
    ghost var done: set<string> := {};
    for i := 0 to |used|
      invariant Rescuing(g, db.lists, db.cards, p', done, "", {}, fixed) && p'.listIds == p.listIds
      invariant forall l :: l in done <==> l in used[..i] && NamesNoList(l, p.listIds)
    {
      if !NamesNoList(used[i], p.listIds) { continue; }
      var n;
      p', n := RescueList(db, g, done, fixed, p', used[i], avoid);
      fixed := fixed + n;
      done := done + {used[i]};
    }
    assert used[..|used|] == used;
    assert done == set l | l in used && NamesNoList(l, p.listIds);
  }

  /** Phase two: every distinct list id of the cards that names no list. */
  method RescueDanglingCards(db: Database, ghost listed: set<string>, p: Plan) returns (p': Plan, fixed: nat)
    requires p.listIds == db.lists.Keys
    requires TargetsFor(db.lists, listed, {}, db.lists, p) && p.targets.Keys == listed
    modifies db`lists, db`cards
    ensures Extends(p, p')
    ensures p'.targets.Keys == listed + DanglingBoards(old(db.cards), p.listIds)
    ensures TargetsFor(old(db.lists), listed, DanglingBoards(old(db.cards), p.listIds), db.lists, p')
    ensures db.cards == map id | id in old(db.cards) :: Rescue(old(db.cards)[id], p')
    ensures db.lists.Keys - old(db.lists.Keys) !! UsedLists(old(db.cards))
    ensures fixed == Changed(old(db.cards), db.cards)
  {
    var used := db.DistinctInCards((c: Card) => c.listId, (c: Card) => true);
    var avoid := UsedLists(db.cards);
    ghost var g := PhaseTwo(db.lists, listed, db.cards, DanglingBoards(db.cards, p.listIds), p, avoid);
    NothingRescuedYet(g, db.lists);
    assert forall id | id in g.start && Dangles(g.start[id], p.listIds) :: Rendered(g.start[id].listId) in used;
    hide TargetsFor, Changed, Rescuing;
    p', fixed := RescueLists(db, g, p, used, avoid);
    AllListsFinished(g, db.lists, db.cards, p', (set l | l in used && NamesNoList(l, p.listIds)), fixed);
  }

  // ---- phase three: unarchived cards in a lane their board does not own ----

  predicate MovedYet(c: Card, lanes: set<string>, lane: string, boards: set<string>) {
    c.archived == No && c.boardId.Is? && c.swimlaneId.Is?
    && (c.swimlaneId.s in lanes || (c.swimlaneId.s == lane && c.boardId.s in boards))
  }

  /** The invariant of phase three: the cards of the lanes in `lanes`, and those of `lane` on the boards
      in `boards`, are where MoveHome puts them; the others are untouched. */
  ghost predicate Moving(start: Cards, cards: Cards, p: Plan, lanes: set<string>, lane: string, boards: set<string>,
                         fixed: int)
  {
    && cards.Keys == start.Keys
    && (forall id | id in start ::
          cards[id] == if MovedYet(start[id], lanes, lane, boards) then MoveHome(start[id], p) else start[id])
    && fixed == Changed(start, cards)
  }

  lemma BoardMoved(start: Cards, cards: Cards, cards': Cards, p: Plan, lanes: set<string>, lane: string,
                   boards: set<string>, b: string, fixed: int)
    requires Moving(start, cards, p, lanes, lane, boards, fixed)
    requires Usable(lane) && lane !in lanes && b !in boards && cards'.Keys == cards.Keys
    requires var target := Lookup(p.defaults, b);
             forall id | id in cards :: cards'[id] ==
               if Lookup(p.owners, lane) != b && target !in {"", lane}
                  && cards[id].boardId == Is(b) && cards[id].swimlaneId == Is(lane) && cards[id].archived == No
               then cards[id].(swimlaneId := Is(target)) else cards[id]
    ensures Moving(start, cards', p, lanes, lane, boards + {b}, fixed + Changed(cards, cards'))
  {
    ChangedAdds(start, cards, cards');
  }

  /** The body of phase three for one lane and one board. */
  method MoveBoard(db: Database, ghost start: Cards, ghost lanes: set<string>, ghost boards: set<string>,
                   ghost fixed: int, p: Plan, lane: string, b: string)
    returns (modified: nat)
    requires Moving(start, db.cards, p, lanes, lane, boards, fixed)
    requires Usable(lane) && lane !in lanes && b !in boards
    modifies db`cards
    ensures Moving(start, db.cards, p, lanes, lane, boards + {b}, fixed + modified)
  {
    hide Moving, Changed;
    ghost var before := db.cards;
    modified := 0;
    NothingChanged(before, before);
    var target := Lookup(p.defaults, b);
    if Lookup(p.owners, lane) != b && target != "" && target != lane {
      modified := db.UpdateCards(
        (c: Card) => c.boardId == Is(b) && c.swimlaneId == Is(lane) && c.archived == No,
        (c: Card) => c.(swimlaneId := Is(target)));
    }
    BoardMoved(start, before, db.cards, p, lanes, lane, boards, b, fixed);
  }

  /** The boards that still have unarchived cards in `lane`: those with any left to move are among them. */
  method BoardsInLane(db: Database, ghost start: Cards, ghost p: Plan, ghost lanes: set<string>, lane: string,
                      ghost fixed: int)
    returns (bs: seq<string>)
    requires Moving(start, db.cards, p, lanes, lane, {}, fixed) && lane !in lanes
    ensures Distinct(bs)
    ensures forall id | id in start && start[id].swimlaneId == Is(lane) && start[id].archived == No
            && start[id].boardId.Is? ::
              start[id].boardId.s in bs
  {
    hide Changed;
    assert forall id | id in start && start[id].swimlaneId == Is(lane) :: db.cards[id] == start[id];
    bs := db.DistinctInCards((c: Card) => c.boardId, (c: Card) => c.swimlaneId == Is(lane) && c.archived == No);
  }

  lemma LaneStarted(start: Cards, cards: Cards, p: Plan, lanes: set<string>, lane: string, fixed: int)
    requires Moving(start, cards, p, lanes, "", {}, fixed)
    ensures Moving(start, cards, p, lanes, lane, {}, fixed)
  {}

  lemma LaneFinished(start: Cards, cards: Cards, p: Plan, lanes: set<string>, lane: string, boards: set<string>,
                     fixed: int)
    requires Moving(start, cards, p, lanes, lane, boards, fixed)
    requires forall id | id in start && start[id].swimlaneId == Is(lane) && start[id].archived == No
             && start[id].boardId.Is? ::
               start[id].boardId.s in boards
    ensures Moving(start, cards, p, lanes + {lane}, "", {}, fixed)
  {}

  method MoveLane(db: Database, ghost start: Cards, ghost lanes: set<string>, ghost before: int, p: Plan, lane: string)
    returns (fixed: nat)
    requires Moving(start, db.cards, p, lanes, "", {}, before) && Usable(lane) && lane !in lanes
    modifies db`cards
    ensures Moving(start, db.cards, p, lanes + {lane}, "", {}, before + fixed)
  {
    hide Moving;
    LaneStarted(start, db.cards, p, lanes, lane, before);
    var bs := BoardsInLane(db, start, p, lanes, lane, before);
    fixed := 0;
    ghost var boards := {};
    for j := 0 to |bs|
      invariant Moving(start, db.cards, p, lanes, lane, boards, before + fixed)
      invariant forall b :: b in boards <==> b in bs[..j]
    {
      var modified := MoveBoard(db, start, lanes, boards, before + fixed, p, lane, bs[j]);
      fixed := fixed + modified;
      boards := boards + {bs[j]};
    }
    LaneFinished(start, db.cards, p, lanes, lane, boards, before + fixed);
  }

  lemma AllLanesFinished(start: Cards, cards: Cards, p: Plan, lanes: set<string>, fixed: int)
    requires Moving(start, cards, p, lanes, "", {}, fixed)
    requires forall id | id in start && start[id].archived == No && start[id].swimlaneId.Is?
             && Usable(start[id].swimlaneId.s) ::
               start[id].swimlaneId.s in lanes
    ensures cards == map id | id in start :: MoveHome(start[id], p)
    ensures fixed == Changed(start, cards)
  {}

  lemma NothingMovedYet(start: Cards, p: Plan)
    ensures Moving(start, start, p, {}, "", {}, 0)
  {
    NothingChanged(start, start);
  }

  /** Phase three: every distinct lane id of the unarchived cards. */
  method MoveForeignCards(db: Database, p: Plan) returns (fixed: nat)
    modifies db`cards
    ensures db.cards == map id | id in old(db.cards) :: MoveHome(old(db.cards)[id], p)
    ensures fixed == Changed(old(db.cards), db.cards)
  {
    ghost var start := db.cards;
    var used := db.DistinctInCards((c: Card) => c.swimlaneId, (c: Card) => c.archived == No);
    assert forall id | id in start && start[id].archived == No && start[id].swimlaneId.Is?
           && Usable(start[id].swimlaneId.s) ::
        start[id].swimlaneId.s in used;
    NothingMovedYet(start, p);
    hide Moving, MoveHome, Changed;
    fixed := 0;
    ghost var lanes: set<string> := {};
    for i := 0 to |used|
      invariant Moving(start, db.cards, p, lanes, "", {}, fixed)
      invariant forall l :: l in lanes <==> l in used[..i] && Usable(l)
    {
      if !Usable(used[i]) { continue; }
      var n := MoveLane(db, start, lanes, fixed, p, used[i]);
      fixed := fixed + n;
      lanes := lanes + {used[i]};
    }
    assert used[..|used|] == used;
    AllLanesFinished(start, db.cards, p, lanes, fixed);
  }

  // ---- the whole run ----

  lemma LeastSortExtends(lists: map<string, Column>, p: Plan, p': Plan)
    requires LeastSort(ListSorts(lists), ListBoards(lists), TargetLists(p)) && Extends(p, p')
    requires ListedBoards(lists) <= p.targets.Keys
    ensures LeastSort(ListSorts(lists), ListBoards(lists), TargetLists(p'))
  {}

  /** The snapshot of the lists: the first by sort of every board is the target of its dangling cards. */
  method FirstLists(db: Database, defaults: map<string, string>, owners: map<string, string>) returns (p: Plan)
    ensures p.defaults == defaults && p.owners == owners && p.listIds == db.lists.Keys
    ensures p.targets.Keys == ListedBoards(db.lists)
    ensures TargetsFor(db.lists, ListedBoards(db.lists), {}, db.lists, p)
    ensures LeastSort(ListSorts(db.lists), ListBoards(db.lists), TargetLists(p))
  {
    var lists := db.lists;
    var first := FirstBySort(ListSorts(lists), ListBoards(lists));
    p := Plan(defaults, owners, lists.Keys, map b | b in first :: Target(first[b], lists[first[b]].swimlaneId));
    assert TargetLists(p) == first;
    forall b ensures b in first <==> b in ListedBoards(lists) {
      if b in ListedBoards(lists) {
        var id :| id in lists && Rendered(lists[id].boardId) == b;
        assert id in ListBoards(lists) && ListBoards(lists)[id] == b;
      }
    }
  }

  lemma FillingKeepsDangling(cards: Cards, filled: Cards, defaults: map<string, string>, listIds: set<string>)
    requires filled == map id | id in cards :: FillLane(cards[id], defaults)
    ensures DanglingBoards(filled, listIds) == DanglingBoards(cards, listIds)
  {
    assert forall id | id in cards :: filled[id].boardId == cards[id].boardId && filled[id].listId == cards[id].listId;
  }

  lemma RunFinished(pre: Store, post: Store, p: Plan, filled: Cards, rescued: Cards, fixed: int)
    requires post.boards == pre.boards
    requires p.owners == Owners(pre.lanes) && p.listIds == pre.lists.Keys
    requires DefaultsFor(pre.lanes, LiveBoards(pre.lanes), pre.boards.Keys, post.lanes, p.defaults)
    requires LeastSort(LaneSorts(pre.lanes), LiveLanes(pre.lanes), p.defaults)
    requires TargetsFor(pre.lists, ListedBoards(pre.lists), DanglingBoards(pre.cards, p.listIds), post.lists, p)
    requires p.targets.Keys == ListedBoards(pre.lists) + DanglingBoards(pre.cards, p.listIds)
    requires post.lists.Keys - pre.lists.Keys !! UsedLists(filled)
    requires LeastSort(ListSorts(pre.lists), ListBoards(pre.lists), TargetLists(p))
    requires filled == map id | id in pre.cards :: FillLane(pre.cards[id], p.defaults)
    requires rescued == map id | id in filled :: Rescue(filled[id], p)
    requires post.cards == map id | id in rescued :: MoveHome(rescued[id], p)
    requires fixed == |post.lanes| - |pre.lanes| + Changed(pre.cards, filled) + Changed(filled, rescued)
             + Changed(rescued, post.cards)
    ensures Repaired(pre, post, p) && fixed == FixedBy(pre, post, p)
  {
    hide DefaultsFor, TargetsFor, LeastSort, DanglingBoards, Changed;
    assert UsedLists(filled) == UsedLists(pre.cards) by {
      assert forall id | id in pre.cards :: filled[id].listId == pre.cards[id].listId;
    }
    assert filled == FillAll(pre.cards, p) && rescued == RescueAll(pre.cards, p)
           && post.cards == RepairAll(pre.cards, p);
  }

  method RunSwimlaneStructure(db: Database) returns (fixed: nat, ghost p: Plan)
    modifies db
    ensures Repaired(old(db.Contents()), db.Contents(), p)
    ensures fixed == FixedBy(old(db.Contents()), db.Contents(), p)
  {
    hide DefaultsFor, TargetsFor, LeastSort, Changed, FillLane, Rescue, MoveHome, DanglingBoards, Repaired, FixedBy;
    hide LiveBoards, ListedBoards, UsedLists, LaneSorts, LiveLanes, ListSorts, ListBoards, TargetLists, Owners;
    ghost var pre := db.Contents();
    var first, owners := StructuralLanes(db);
    var defaults, created := CreateDefaultLanes(db, first);
    LeastSortKept(pre.lanes, first, defaults);
    var filled := FillMissingLanes(db, defaults);
    ghost var cards1 := db.cards;
    var plan := FirstLists(db, defaults, owners);
    FillingKeepsDangling(pre.cards, cards1, defaults, plan.listIds);
    var plan', rescued := RescueDanglingCards(db, ListedBoards(db.lists), plan);
    LeastSortExtends(pre.lists, plan, plan');
    ghost var cards2 := db.cards;
    var moved := MoveForeignCards(db, plan');
    p, fixed := plan', created + filled + rescued + moved;
    RunFinished(pre, db.Contents(), p, cards1, cards2, fixed);
  }

  lemma LeastSortKept(lanes: map<string, Lane>, first: map<string, string>, defaults: map<string, string>)
    requires LeastSort(LaneSorts(lanes), LiveLanes(lanes), first) && first.Keys == LiveBoards(lanes)
    requires forall b | b in first :: b in defaults && defaults[b] == first[b]
    ensures LeastSort(LaneSorts(lanes), LiveLanes(lanes), defaults)
  {}

  // ---- the check ----

  /** An unarchived card in a usable lane that does not exist or that another board owns. */
  predicate Misplaced(c: Card, lanes: map<string, Lane>) {
    && c.archived == No && c.swimlaneId.Is? && Usable(c.swimlaneId.s)
    && var owner := Lookup(Owners(lanes), c.swimlaneId.s);
       owner == "" || (c.boardId != Missing && Rendered(c.boardId) != owner)
  }

  /** Some lane, live or not, carries the board's id. */
  ghost predicate HasLane(lanes: map<string, Lane>, b: string) {
    exists id :: id in lanes && lanes[id].boardId != Missing && Rendered(lanes[id].boardId) == b
  }

  ghost predicate NeedsRepair(s: Store) {
    || (exists id :: id in s.cards && Blank(s.cards[id].swimlaneId))
    || (exists b :: b in s.boards && !HasLane(s.lanes, b))
    || (exists id :: id in s.cards && Dangles(s.cards[id], s.lists.Keys))
    || (exists id :: id in s.cards && Misplaced(s.cards[id], s.lanes))
  }

  method CheckSwimlaneStructure(db: Database) returns (needed: bool)
    ensures needed == NeedsRepair(db.Contents())
  {
    ghost var s := db.Contents();
    if exists id :: id in db.cards && Blank(db.cards[id].swimlaneId) { return true; }
    var boards := Enumerate(db.boards.Keys);
    var owned := set id | id in db.lanes && db.lanes[id].boardId != Missing :: Rendered(db.lanes[id].boardId);
    assert forall b :: b in owned <==> HasLane(s.lanes, b);
    for i := 0 to |boards|
      invariant forall b | b in boards[..i] :: HasLane(s.lanes, b)
    {
      if boards[i] !in owned { return true; }
    }
    assert boards[..|boards|] == boards;
    var used := db.DistinctInCards((c: Card) => c.listId, (c: Card) => true);
    for i := 0 to |used|
      invariant forall l | l in used[..i] :: !NamesNoList(l, s.lists.Keys)
    {
      if NamesNoList(used[i], db.lists.Keys) {
        assert used[i] in used;
        ghost var id :| id in db.cards && Rendered(db.cards[id].listId) == used[i];
        assert Dangles(s.cards[id], s.lists.Keys);
        return true;
      }
    }
    assert used[..|used|] == used;
    assert forall id | id in s.cards :: Dangles(s.cards[id], s.lists.Keys) ==> Rendered(s.cards[id].listId) in used;
    needed := CheckLanes(db);
  }

  /** One lane in use: misplaced cards show as a missing owner or as a second board. */
  method CheckLane(db: Database, owners: map<string, string>, lane: string) returns (bad: bool)
    requires owners == Owners(db.lanes) && Usable(lane)
    requires exists id :: id in db.cards && db.cards[id].archived == No && db.cards[id].swimlaneId == Is(lane)
    ensures bad <==> exists id ::
                       id in db.cards && db.cards[id].swimlaneId == Is(lane) && Misplaced(db.cards[id], db.lanes)
  {
    var owner := Lookup(owners, lane);
    if owner == "" {
      ghost var id :| id in db.cards && db.cards[id].archived == No && db.cards[id].swimlaneId == Is(lane);
      assert Misplaced(db.cards[id], db.lanes);
      return true;
    }
    var bs := db.DistinctInCards((c: Card) => c.boardId, (c: Card) => c.swimlaneId == Is(lane) && c.archived == No);
    for j := 0 to |bs|
      invariant forall k | 0 <= k < j :: bs[k] == owner
    {
      assert bs[j] in bs;
      if bs[j] != owner {
        ghost var id :| id in db.cards && db.cards[id].archived == No && db.cards[id].swimlaneId == Is(lane)
                        && db.cards[id].boardId != Missing && Rendered(db.cards[id].boardId) == bs[j];
        assert Misplaced(db.cards[id], db.lanes);
        return true;
      }
    }
    assert forall id | id in db.cards && db.cards[id].archived == No && db.cards[id].swimlaneId == Is(lane)
        && db.cards[id].boardId != Missing :: Rendered(db.cards[id].boardId) in bs;
    return false;
  }

  /** The last probe of the check: every lane in use against the boards of its unarchived cards. */
  method CheckLanes(db: Database) returns (needed: bool)
    ensures needed <==> exists id :: id in db.cards && Misplaced(db.cards[id], db.lanes)
  {
    var _, owners := StructuralLanes(db);
    var used := db.DistinctInCards((c: Card) => c.swimlaneId, (c: Card) => c.archived == No);
    for i := 0 to |used|
      invariant forall id | id in db.cards && Misplaced(db.cards[id], db.lanes) ::
                  db.cards[id].swimlaneId.s !in used[..i]
    {
      if !Usable(used[i]) { continue; }
      assert used[i] in used;
      assert exists id :: id in db.cards && db.cards[id].archived == No && db.cards[id].swimlaneId == Is(used[i]);
      var bad := CheckLane(db, owners, used[i]);
      if bad { return true; }
    }
    assert used[..|used|] == used;
    return false;
  }
}
