/**
 The swimlane-structure check and run in terms of the documents' own fields: what a run leaves of every
 card, lane and list, and what its count counts, for every enumeration order and choice of fresh ids.
 */
module SwimlaneMeaning {
  import opened MigrationStore
  import opened SwimlaneStructure
  import opened SwimlaneLaws

  /** How an id field reads. */
  lemma IdsRead(r: Ref, b: string)
    ensures Rendered(r) == b <==> r == Is(b) || (r == Null && b == "null") || (r == Missing && b == "undefined")
  {}

  predicate NamesSomething(r: Ref) {
    r.Is? && r.s !in {"", "null", "undefined"}
  }

  /** A lane that shows on board b. */
  predicate ShowsOn(lane: Lane, b: string) {
    !lane.archived && !lane.template && Rendered(lane.boardId) == b
  }

  // ---- the check ----

  /** An unarchived card is in a lane that does not exist, belongs to no board, or belongs to another. */
  predicate Astray(c: Card, lanes: map<string, Lane>) {
    && c.archived == No && NamesSomething(c.swimlaneId)
    && (c.swimlaneId.s !in lanes || Rendered(lanes[c.swimlaneId.s].boardId) == ""
        || (c.boardId != Missing && Rendered(c.boardId) != Rendered(lanes[c.swimlaneId.s].boardId)))
  }

  /** What the check asks. */
  lemma CheckAsks(s: Store)
    ensures NeedsRepair(s) <==>
              || (exists id :: id in s.cards && s.cards[id].swimlaneId in {Missing, Null, Is("")})
              || (exists b :: b in s.boards
                              && forall id | id in s.lanes && s.lanes[id].boardId != Missing ::
                                   Rendered(s.lanes[id].boardId) != b)
              || (exists id :: id in s.cards && NamesSomething(s.cards[id].listId) && s.cards[id].listId.s !in s.lists)
              || (exists id :: id in s.cards && Astray(s.cards[id], s.lanes))
  {
    forall id | id in s.cards ensures Dangles(s.cards[id], s.lists.Keys)
        <==> NamesSomething(s.cards[id].listId) && s.cards[id].listId.s !in s.lists {}
    forall id | id in s.cards ensures Misplaced(s.cards[id], s.lanes) <==> Astray(s.cards[id], s.lanes) {}
    hide Dangles, Misplaced, Astray, NamesSomething;
  }

  // ---- lanes and lists ----

  /** The boards that exist or have a visible lane get a default: a lane that shows on them, an old one if there
      is one, and then the first by sort when the sort values are numbers. */
  lemma DefaultsShow(pre: Store, post: Store, p: Plan, b: string)
    requires Repaired(pre, post, p)
    ensures b in p.defaults <==> b in pre.boards || exists id :: id in pre.lanes && ShowsOn(pre.lanes[id], b)
    ensures b in p.defaults ==> p.defaults[b] in post.lanes && ShowsOn(post.lanes[p.defaults[b]], b)
    ensures forall id | id in pre.lanes && ShowsOn(pre.lanes[id], b) ::
              && p.defaults[b] in pre.lanes
              && ((forall x | x in pre.lanes :: pre.lanes[x].sort.Num?) ==>
                    pre.lanes[p.defaults[b]].sort.n <= pre.lanes[id].sort.n)
  {
    RunEquations(pre, post, p);
    if b in p.defaults { assert IsLiveOf(post.lanes, p.defaults[b], b); }
    forall id | id in pre.lanes && ShowsOn(pre.lanes[id], b)
      ensures p.defaults[b] in pre.lanes
      ensures (forall x | x in pre.lanes :: pre.lanes[x].sort.Num?) ==>
                pre.lanes[p.defaults[b]].sort.n <= pre.lanes[id].sort.n
    {
      assert b in LiveBoards(pre.lanes);
      if forall x | x in pre.lanes :: pre.lanes[x].sort.Num? {
        LeastLane(pre, p, b, id);
      }
    }
  }

  lemma LeastLane(pre: Store, p: Plan, b: string, id: string)
    requires LeastSort(LaneSorts(pre.lanes), LiveLanes(pre.lanes), p.defaults)
    requires b in p.defaults && p.defaults[b] in pre.lanes && id in pre.lanes && ShowsOn(pre.lanes[id], b)
    requires forall x | x in pre.lanes :: pre.lanes[x].sort.Num?
    ensures pre.lanes[p.defaults[b]].sort.n <= pre.lanes[id].sort.n
  {
    assert LiveLanes(pre.lanes)[id] == b;
    assert !LessThan(LaneSorts(pre.lanes)[id], LaneSorts(pre.lanes)[p.defaults[b]]);
  }

  /** A lane is new only as the default of a board that had none to show, and is plain. */
  lemma NewLanesAreDefaults(pre: Store, post: Store, p: Plan, id: string)
    requires Repaired(pre, post, p) && id in post.lanes && id !in pre.lanes
    ensures exists b ::
              && b in pre.boards && b in p.defaults && p.defaults[b] == id
              && post.lanes[id] == Lane(Is(b), false, false, Num(0.0))
              && forall x | x in pre.lanes :: !ShowsOn(pre.lanes[x], b)
  {
    RunEquations(pre, post, p);
    assert IsNewDefault(LiveBoards(pre.lanes), pre.boards.Keys, id, post.lanes[id], p.defaults);
    var b := post.lanes[id].boardId.s;
    ShowingBoardsAreLive(pre.lanes, b);
  }

  lemma ShowingBoardsAreLive(lanes: map<string, Lane>, b: string)
    ensures b in LiveBoards(lanes) <==> exists x :: x in lanes && ShowsOn(lanes[x], b)
  {
    if x :| x in lanes && ShowsOn(lanes[x], b) { assert Live(lanes[x]); }
  }

  ghost function DefaultOf(p: Plan, b: string): string {
    if b in p.defaults then p.defaults[b] else ""
  }

  /** A card whose list does not exist, and its board has a name. */
  predicate Lost(c: Card, lists: map<string, Column>) {
    NamesSomething(c.listId) && c.listId.s !in lists && c.boardId.Is?
  }

  /** A list is new only for lost cards of a board without any list, and is stamped with the board's default. */
  lemma NewListsAreForTheLost(pre: Store, post: Store, p: Plan, id: string)
    requires Repaired(pre, post, p) && id in post.lists && id !in pre.lists
    ensures exists b, card ::
              && card in pre.cards && NamesSomething(pre.cards[card].listId) && pre.cards[card].listId.s !in pre.lists
              && pre.cards[card].boardId != Missing && Rendered(pre.cards[card].boardId) == b
              && (forall x | x in pre.lists :: Rendered(pre.lists[x].boardId) != b)
              && post.lists[id] == Column(Is(b), Is(DefaultOf(p, b)), Is("Rescued Data"), false, false, Num(0.0), NaN)
  {
    RunEquations(pre, post, p);
    var b := NewListIsATarget(pre, post, p, id);
    hide *;
    var card := CardOfDangling(pre, p, b);
    ListedHaveLists(pre.lists, b);
  }

  lemma CardOfDangling(pre: Store, p: Plan, b: string) returns (card: string)
    requires b in DanglingBoards(pre.cards, p.listIds) && p.listIds == pre.lists.Keys
    ensures card in pre.cards && NamesSomething(pre.cards[card].listId) && pre.cards[card].listId.s !in pre.lists
    ensures pre.cards[card].boardId != Missing && Rendered(pre.cards[card].boardId) == b
  {
    card :| card in pre.cards && pre.cards[card].boardId != Missing && Dangles(pre.cards[card], p.listIds)
      && Rendered(pre.cards[card].boardId) == b;
  }

  lemma NewListIsATarget(pre: Store, post: Store, p: Plan, id: string) returns (b: string)
    requires Repaired(pre, post, p) && id in post.lists && id !in pre.lists
    ensures b in DanglingBoards(pre.cards, p.listIds) && b !in ListedBoards(pre.lists)
    ensures post.lists[id] == Column(Is(b), Is(DefaultOf(p, b)), Is("Rescued Data"), false, false, Num(0.0), NaN)
  {
    hide DefaultsFor, RepairAll, LeastSort, DanglingBoards, ListedBoards, UsedLists;
    assert IsNewTarget(DanglingBoards(pre.cards, p.listIds) - ListedBoards(pre.lists), id, post.lists[id], p);
    return post.lists[id].boardId.s;
  }

  lemma ListedHaveLists(lists: map<string, Column>, b: string)
    ensures b in ListedBoards(lists) <==> exists x :: x in lists && Rendered(lists[x].boardId) == b
  {}

  /** Old lists are as they were. */
  lemma OldListsAreKept(pre: Store, post: Store, p: Plan, id: string)
    requires Repaired(pre, post, p) && id in pre.lists
    ensures id in post.lists && post.lists[id] == pre.lists[id]
  {
    hide DefaultsFor, RepairAll, LeastSort, UsedLists, DanglingBoards, ListedBoards;
  }

  // ---- cards ----

  lemma LostIsRescuable(pre: Store, post: Store, p: Plan, id: string)
    requires Repaired(pre, post, p) && id in pre.cards
    ensures Rescuable(pre.cards[id], p) <==> Lost(pre.cards[id], pre.lists)
    ensures Lost(pre.cards[id], pre.lists) ==>
              IsTarget(post.lists, p.targets[pre.cards[id].boardId.s], pre.cards[id].boardId.s)
  {
    RunEquations(pre, post, p);
    hide Repaired, IsTarget, Lost, Dangles, DanglingBoards, RepairAll, Owners;
    TargetsAreThere(pre, post, p, pre.cards[id].boardId);
    LostDangles(pre.cards[id], pre.lists);
    if Lost(pre.cards[id], pre.lists) { LostIsDangling(pre, p, id); }
  }

  lemma LostDangles(c: Card, lists: map<string, Column>)
    ensures Lost(c, lists) <==> c.boardId.Is? && Dangles(c, lists.Keys)
  {}

  lemma LostIsDangling(pre: Store, p: Plan, id: string)
    requires id in pre.cards && p.listIds == pre.lists.Keys && Lost(pre.cards[id], pre.lists)
    ensures pre.cards[id].boardId.s in DanglingBoards(pre.cards, p.listIds)
  {
    assert Rendered(pre.cards[id].boardId) == pre.cards[id].boardId.s;
  }

  lemma TargetsAreThere(pre: Store, post: Store, p: Plan, r: Ref)
    requires Repaired(pre, post, p)
    ensures r.Is? && r.s in DanglingBoards(pre.cards, p.listIds) ==> r.s in p.targets
    ensures r.Is? && r.s in p.targets ==> IsTarget(post.lists, p.targets[r.s], r.s)
  {
    hide DefaultsFor, RepairAll, LeastSort, DanglingBoards, ListedBoards, UsedLists, IsTarget, IsNewTarget;
  }

  /** Exactly the lost cards change their list; it is then one of their board, the first by sort when there were
      lists and their sort values are numbers. */
  lemma RescuedExactlyWhenLost(pre: Store, post: Store, p: Plan, id: string)
    requires Repaired(pre, post, p) && id in pre.cards
    ensures post.cards[id].listId != pre.cards[id].listId <==> Lost(pre.cards[id], pre.lists)
    ensures Lost(pre.cards[id], pre.lists) ==>
              && post.cards[id].listId.Is? && post.cards[id].listId.s in post.lists
              && Rendered(post.lists[post.cards[id].listId.s].boardId) == pre.cards[id].boardId.s
  {
    LostIsRescuable(pre, post, p, id);
    if Dangles(pre.cards[id], p.listIds) { DanglingListIds(pre, post, p, id); }
    RunEquations(pre, post, p);
    RepairedListId(pre.cards[id], p);
    hide Repair, Repaired, Dangles;
  }

  lemma TargetsAreOld(pre: Store, post: Store, p: Plan, b: string)
    requires Repaired(pre, post, p) && b in p.targets && b in ListedBoards(pre.lists)
    ensures p.targets[b].listId in pre.lists
  {
    hide DefaultsFor, RepairAll, LeastSort, DanglingBoards, ListedBoards, UsedLists;
    assert IsTarget(post.lists, p.targets[b], b);
  }

  lemma TheFirstListIsTaken(pre: Store, post: Store, p: Plan, id: string, list: string)
    requires Repaired(pre, post, p) && id in pre.cards && Lost(pre.cards[id], pre.lists)
    requires list in pre.lists && Rendered(pre.lists[list].boardId) == pre.cards[id].boardId.s
    requires forall x | x in pre.lists :: pre.lists[x].sort.Num?
    ensures post.cards[id].listId.Is? && post.cards[id].listId.s in pre.lists
    ensures pre.lists[post.cards[id].listId.s].sort.n <= pre.lists[list].sort.n
  {
    var b := pre.cards[id].boardId.s;
    LostIsRescuable(pre, post, p, id);
    RunEquations(pre, post, p);
    RepairedListId(pre.cards[id], p);
    hide Repair, DefaultsFor, Rescuable, RepairAll;
    var target := p.targets[b].listId;
    assert b in ListedBoards(pre.lists);
    TargetsAreOld(pre, post, p, b);
    assert TargetLists(p)[b] == target && ListBoards(pre.lists)[list] == b;
    assert !LessThan(ListSorts(pre.lists)[list], ListSorts(pre.lists)[target]);
  }

  /** The lane a card is sent to before it is checked whose lane that is: a lost card takes its new list's, or for
      want of one its board's default; a card without a lane takes its board's default; others keep theirs. */
  ghost function SentTo(pre: Store, post: Store, p: Plan, id: string): Ref
    requires id in pre.cards && id in post.cards
  {
    var c, to := pre.cards[id], post.cards[id].listId;
    if !c.boardId.Is? then c.swimlaneId
    else if Lost(c, pre.lists) then
      if to.Is? && to.s in post.lists && post.lists[to.s].swimlaneId.Is? && post.lists[to.s].swimlaneId.s != "" then
        post.lists[to.s].swimlaneId
      else Is(DefaultOf(p, c.boardId.s))
    else if c.swimlaneId in {Missing, Null, Is("")} && c.boardId.s in p.defaults then Is(p.defaults[c.boardId.s])
    else c.swimlaneId
  }

  /** An unarchived card in a lane that is not its board's old one, while its board has another default. */
  ghost predicate Abroad(pre: Store, p: Plan, c: Card, lane: Ref) {
    && c.archived == No && c.boardId.Is? && NamesSomething(lane)
    && !(lane.s in pre.lanes && Rendered(pre.lanes[lane.s].boardId) == c.boardId.s)
    && (lane.s in pre.lanes || c.boardId.s != "")
    && DefaultOf(p, c.boardId.s) !in {"", lane.s}
  }

  lemma FillingKeepsRescuable(c: Card, p: Plan)
    ensures Rescuable(FillLane(c, p.defaults), p) <==> Rescuable(c, p)
  {}

  lemma RescuableHasABoard(c: Card, p: Plan)
    ensures Rescuable(c, p) ==> c.boardId.Is? && c.boardId.s in p.targets
  {}

  lemma RescuedLane(c: Card, p: Plan, lists: map<string, Column>)
    requires Rescuable(c, p) ==> IsTarget(lists, p.targets[c.boardId.s], c.boardId.s)
    ensures var r := Rescue(FillLane(c, p.defaults), p);
            && r.boardId == c.boardId && r.archived == c.archived
            && r.swimlaneId ==
               if !Rescuable(c, p) then
                 if c.boardId.Is? && c.swimlaneId in {Missing, Null, Is("")} && c.boardId.s in p.defaults then
                   Is(p.defaults[c.boardId.s])
                 else c.swimlaneId
               else
                 var stamp := lists[p.targets[c.boardId.s].listId].swimlaneId;
                 if stamp.Is? && stamp.s != "" then stamp else Is(DefaultOf(p, c.boardId.s))
  {
    FillingKeepsRescuable(c, p);
    RescuableHasABoard(c, p);
    hide Rescuable;
  }

  lemma RescuedLaneIs(pre: Store, post: Store, p: Plan, id: string)
    requires Repaired(pre, post, p) && id in pre.cards && id in post.cards
    ensures var r := Rescue(FillLane(pre.cards[id], p.defaults), p);
            && r.boardId == pre.cards[id].boardId && r.archived == pre.cards[id].archived
            && r.swimlaneId == SentTo(pre, post, p, id)
  {
    LostIsRescuable(pre, post, p, id);
    RunEquations(pre, post, p);
    RepairedListId(pre.cards[id], p);
    RescuableHasABoard(pre.cards[id], p);
    hide Repaired, Repair, Rescuable, Lost, Rescue, FillLane, DefaultOf, Owners;
    RescuedLane(pre.cards[id], p, post.lists);
    assert post.cards[id].listId == Repair(pre.cards[id], p).listId;
    assert Lost(pre.cards[id], pre.lists) <==> Rescuable(pre.cards[id], p);
    assert Rescuable(pre.cards[id], p) ==> post.cards[id].listId.s in post.lists;
  }

  lemma ForeignIsAbroad(pre: Store, p: Plan, c: Card)
    requires p.owners == Owners(pre.lanes)
    ensures Foreign(c, p) <==> Abroad(pre, p, c, c.swimlaneId)
    ensures Foreign(c, p) ==> Lookup(p.defaults, c.boardId.s) == DefaultOf(p, c.boardId.s)
  {}

  /** The lane of every card after a run. */
  lemma CardsEndInTheirLane(pre: Store, post: Store, p: Plan, id: string)
    requires Repaired(pre, post, p) && id in pre.cards
    ensures id in post.cards
    ensures var c, lane := pre.cards[id], SentTo(pre, post, p, id);
            post.cards[id].swimlaneId == if Abroad(pre, p, c, lane) then Is(DefaultOf(p, c.boardId.s)) else lane
  {
    CardsAreConserved(pre, post, p);
    RunEquations(pre, post, p);
    hide Repaired, SentTo, Owners, DefaultOf, Rescue, FillLane, Foreign, Lookup;
    RescuedLaneIs(pre, post, p, id);
    var r := Rescue(FillLane(pre.cards[id], p.defaults), p);
    ForeignIsAbroad(pre, p, r);
    assert Abroad(pre, p, r, r.swimlaneId) <==> Abroad(pre, p, pre.cards[id], r.swimlaneId);
    hide Abroad;
  }

  // ---- the count ----

  function Laneless(pre: Store, p: Plan): set<string> {
    set id | id in pre.cards && pre.cards[id].boardId.Is? && pre.cards[id].boardId.s in p.defaults
             && pre.cards[id].swimlaneId in {Missing, Null, Is("")}
  }

  function LostCards(pre: Store): set<string> {
    set id | id in pre.cards && Lost(pre.cards[id], pre.lists)
  }

  ghost function Strays(pre: Store, post: Store, p: Plan): set<string> {
    set id | id in pre.cards && id in post.cards && Abroad(pre, p, pre.cards[id], SentTo(pre, post, p, id))
  }

  lemma FilledAreLaneless(pre: Store, post: Store, p: Plan)
    requires Repaired(pre, post, p) && IdsNonEmpty(pre)
    ensures ChangedIds(pre.cards, FillAll(pre.cards, p)) == Laneless(pre, p)
  {
    hide Repaired, FillLane, Laneless, IdsNonEmpty;
    LanelessAreCards(pre, post, p);
    forall id | id in pre.cards
      ensures FillLane(pre.cards[id], p.defaults) != pre.cards[id] <==> id in Laneless(pre, p)
    {
      FilledWhenLaneless(pre, post, p, id);
    }
  }

  lemma RescuedAreLost(pre: Store, post: Store, p: Plan)
    requires Repaired(pre, post, p)
    ensures ChangedIds(FillAll(pre.cards, p), RescueAll(pre.cards, p)) == LostCards(pre)
  {
    hide Repaired, FillLane, Rescue, LostCards;
    LanelessAreCards(pre, post, p);
    forall id | id in pre.cards
      ensures Rescue(FillLane(pre.cards[id], p.defaults), p) != FillLane(pre.cards[id], p.defaults)
              <==> id in LostCards(pre)
    {
      RescuedWhenLost(pre, post, p, id);
    }
  }

  lemma MovedAreStrays(pre: Store, post: Store, p: Plan)
    requires Repaired(pre, post, p)
    ensures ChangedIds(RescueAll(pre.cards, p), RepairAll(pre.cards, p)) == Strays(pre, post, p)
  {
    hide Repaired, FillLane, Rescue, Repair, Strays;
    LanelessAreCards(pre, post, p);
    forall id | id in pre.cards
      ensures Repair(pre.cards[id], p) != Rescue(FillLane(pre.cards[id], p.defaults), p)
              <==> id in Strays(pre, post, p)
    {
      MovedWhenAstray(pre, post, p, id);
    }
  }

  lemma LanelessAreCards(pre: Store, post: Store, p: Plan)
    ensures Laneless(pre, p) <= pre.cards.Keys && LostCards(pre) <= pre.cards.Keys
            && Strays(pre, post, p) <= pre.cards.Keys
  {
    hide Lost, Abroad, SentTo;
  }

  lemma FilledWhenLaneless(pre: Store, post: Store, p: Plan, id: string)
    requires Repaired(pre, post, p) && IdsNonEmpty(pre) && id in pre.cards
    ensures FillLane(pre.cards[id], p.defaults) != pre.cards[id] <==> id in Laneless(pre, p)
  {
    var c := pre.cards[id];
    if c.boardId.Is? && c.boardId.s in p.defaults { DefaultIsALane(pre, post, p, c.boardId.s); }
    hide Repaired, IdsNonEmpty;
  }

  lemma RescuedWhenLost(pre: Store, post: Store, p: Plan, id: string)
    requires Repaired(pre, post, p) && id in pre.cards
    ensures Rescue(FillLane(pre.cards[id], p.defaults), p) != FillLane(pre.cards[id], p.defaults)
            <==> id in LostCards(pre)
  {
    var c := pre.cards[id];
    LostIsRescuable(pre, post, p, id);
    FillingKeepsRescuable(c, p);
    RescuedExactlyWhenLost(pre, post, p, id);
    RunEquations(pre, post, p);
    RepairedListId(c, p);
    hide Repaired, Repair, Rescuable, Lost, RescueLane;
  }

  lemma MovedWhenAstray(pre: Store, post: Store, p: Plan, id: string)
    requires Repaired(pre, post, p) && id in pre.cards
    ensures id in post.cards
    ensures Repair(pre.cards[id], p) != Rescue(FillLane(pre.cards[id], p.defaults), p)
            <==> id in Strays(pre, post, p)
  {
    CardsAreConserved(pre, post, p);
    RunEquations(pre, post, p);
    hide Repaired, SentTo, Owners, Rescue, FillLane;
    RescuedLaneIs(pre, post, p, id);
    var r := Rescue(FillLane(pre.cards[id], p.defaults), p);
    ForeignIsAbroad(pre, p, r);
    assert Abroad(pre, p, r, r.swimlaneId) <==> Abroad(pre, p, pre.cards[id], r.swimlaneId);
    hide Abroad;
  }

  /** Fixed counts the new lanes, the cards given a lane, the lost cards and those brought home. */
  lemma FixedCounts(pre: Store, post: Store, p: Plan)
    requires Repaired(pre, post, p) && IdsNonEmpty(pre)
    ensures FixedBy(pre, post, p)
            == |post.lanes| - |pre.lanes| + |Laneless(pre, p)| + |LostCards(pre)| + |Strays(pre, post, p)|
  {
    FilledAreLaneless(pre, post, p);
    RescuedAreLost(pre, post, p);
    MovedAreStrays(pre, post, p);
    hide Repaired, FillAll, RescueAll, RepairAll, Laneless, LostCards, Strays, ChangedIds;
  }
}
