/**
 What a completed swimlane-structure run guarantees, for every store and every choice
 of enumeration order and fresh ids: referential integrity, conservation, idempotence
 and agreement with the check.
 */
module SwimlaneLaws {
  import opened MigrationStore
  import opened SwimlaneStructure

  /** Board and lane ids, and the board ids of lanes, are not empty. */
  ghost predicate IdsNonEmpty(s: Store) {
    && (forall b | b in s.boards :: b != "")
    && (forall id | id in s.lanes :: id != "" && s.lanes[id].boardId != Is(""))
  }

  /** The equations of Repaired, without its quantified parts. */
  lemma RunEquations(pre: Store, post: Store, p: Plan)
    requires Repaired(pre, post, p)
    ensures post.boards == pre.boards && p.owners == Owners(pre.lanes) && p.listIds == pre.lists.Keys
    ensures p.defaults.Keys == pre.boards.Keys + LiveBoards(pre.lanes)
    ensures post.cards == RepairAll(pre.cards, p)
  {}

  // ---- integrity ----

  /** Every board has a live lane, and lanes are only ever added. */
  lemma EveryBoardHasALiveLane(pre: Store, post: Store, p: Plan)
    requires Repaired(pre, post, p)
    ensures post.boards.Keys <= LiveBoards(post.lanes)
    ensures forall id | id in pre.lanes :: id in post.lanes && post.lanes[id] == pre.lanes[id]
  {
    forall b | b in post.boards ensures b in LiveBoards(post.lanes) {
      assert IsLiveOf(post.lanes, p.defaults[b], b);
    }
  }

  lemma RepairedListId(c: Card, p: Plan)
    ensures Repair(c, p).listId == if Rescuable(c, p) then Is(p.targets[c.boardId.s].listId) else c.listId
  {}

  /** The boards of dangling cards have a target list, and new lists take no id that a card already names. */
  lemma DanglingListIds(pre: Store, post: Store, p: Plan, id: string)
    requires Repaired(pre, post, p) && id in pre.cards && Dangles(pre.cards[id], p.listIds)
    ensures pre.cards[id].boardId.Is? ==>
              pre.cards[id].boardId.s in p.targets && p.targets[pre.cards[id].boardId.s].listId in post.lists
    ensures Rendered(pre.cards[id].listId) !in post.lists
  {
    var c := pre.cards[id];
    hide RepairAll, DefaultsFor, LeastSort;
    assert Rendered(c.listId) in UsedLists(pre.cards);
    if c.boardId.Is? {
      assert Rendered(c.boardId) in DanglingBoards(pre.cards, p.listIds);
      assert IsTarget(post.lists, p.targets[c.boardId.s], c.boardId.s);
    }
  }

  lemma ListsAreKept(pre: Store, post: Store, p: Plan)
    requires Repaired(pre, post, p)
    ensures pre.lists.Keys <= post.lists.Keys
  {
    hide RepairAll, DefaultsFor, LeastSort, UsedLists, DanglingBoards, ListedBoards;
  }

  /** A list id still dangles exactly when it did before and its card has no string boardId to rescue it by. */
  lemma DanglingLeftExactlyWithoutBoard(pre: Store, post: Store, p: Plan, id: string)
    requires Repaired(pre, post, p) && id in pre.cards
    ensures Dangles(post.cards[id], post.lists.Keys)
            <==> Dangles(pre.cards[id], pre.lists.Keys) && !pre.cards[id].boardId.Is?
  {
    hide Repaired, Repair, LiveBoards, Owners;
    RunEquations(pre, post, p);
    ListsAreKept(pre, post, p);
    if Dangles(pre.cards[id], p.listIds) { DanglingListIds(pre, post, p, id); }
    RepairedListId(pre.cards[id], p);
  }

  /** A card whose boardId is null keeps its dangling list id through every run. */
  lemma NullBoardCardStaysDangling(post: Store, p: Plan)
    requires Repaired(Store(map[], map[], map[], map["c" := Card(Null, Is("gone"), Is("s"), No)]), post, p)
    ensures Dangles(post.cards["c"], post.lists.Keys)
  {
    var pre := Store(map[], map[], map[], map["c" := Card(Null, Is("gone"), Is("s"), No)]);
    DanglingLeftExactlyWithoutBoard(pre, post, p, "c");
  }

  /** A rescued card lands in a list of its own board. */
  lemma RescuedCardsStayOnTheirBoard(pre: Store, post: Store, p: Plan, id: string)
    requires Repaired(pre, post, p) && id in pre.cards
    requires post.cards[id].listId != pre.cards[id].listId
    ensures post.cards[id].listId.Is? && post.cards[id].listId.s in post.lists
    ensures pre.cards[id].boardId.Is?
            && Rendered(post.lists[post.cards[id].listId.s].boardId) == pre.cards[id].boardId.s
  {
    assert IsTarget(post.lists, p.targets[pre.cards[id].boardId.s], pre.cards[id].boardId.s);
  }

  lemma DefaultIsALane(pre: Store, post: Store, p: Plan, b: string)
    requires Repaired(pre, post, p) && IdsNonEmpty(pre) && b in p.defaults
    ensures p.defaults[b] != "" && p.defaults[b] in post.lanes && Rendered(post.lanes[p.defaults[b]].boardId) == b
            && b != ""
  {
    assert IsLiveOf(post.lanes, p.defaults[b], b);
    if p.defaults[b] !in pre.lanes {
      assert IsNewDefault(LiveBoards(pre.lanes), pre.boards.Keys, p.defaults[b], post.lanes[p.defaults[b]], p.defaults);
    }
  }

  /** Every card of a board that exists or has a live lane ends in some lane. */
  lemma NoCardWithoutALane(pre: Store, post: Store, p: Plan, id: string)
    requires Repaired(pre, post, p) && IdsNonEmpty(pre)
    requires id in pre.cards && pre.cards[id].boardId.Is? && pre.cards[id].boardId.s in p.defaults
    ensures !Blank(post.cards[id].swimlaneId)
  {
    DefaultIsALane(pre, post, p, pre.cards[id].boardId.s);
  }

  lemma RepairedCardIsHome(c: Card, p: Plan)
    requires c.boardId.Is? && c.boardId.s in p.defaults && p.defaults[c.boardId.s] != ""
    requires c.archived == No && Usable(Rendered(Repair(c, p).swimlaneId))
    ensures Repair(c, p).swimlaneId == Is(p.defaults[c.boardId.s])
         || Lookup(p.owners, Repair(c, p).swimlaneId.s) == c.boardId.s
  {}

  /** Every unarchived card of such a board, if its lane id is usable, is in a lane owned by its board. */
  lemma UnarchivedCardsAreHome(pre: Store, post: Store, p: Plan, id: string)
    requires Repaired(pre, post, p) && IdsNonEmpty(pre)
    requires id in pre.cards && pre.cards[id].boardId.Is? && pre.cards[id].boardId.s in p.defaults
    requires post.cards[id].archived == No && Usable(Rendered(post.cards[id].swimlaneId))
    ensures post.cards[id].swimlaneId.s in post.lanes
    ensures Rendered(post.lanes[post.cards[id].swimlaneId.s].boardId) == post.cards[id].boardId.s
  {
    DefaultIsALane(pre, post, p, pre.cards[id].boardId.s);
    RunEquations(pre, post, p);
    EveryBoardHasALiveLane(pre, post, p);
    hide Repaired, LiveBoards, IdsNonEmpty;
    RepairedCardIsHome(pre.cards[id], p);
  }

  lemma HomeIsNotMisplaced(c: Card, lanes: map<string, Lane>)
    requires c.boardId.Is? && c.boardId.s != ""
    requires c.archived == No && Usable(Rendered(c.swimlaneId)) ==>
               c.swimlaneId.s in lanes && Rendered(lanes[c.swimlaneId.s].boardId) == c.boardId.s
    ensures !Misplaced(c, lanes)
  {}

  lemma NotMisplaced(pre: Store, post: Store, p: Plan, id: string)
    requires Repaired(pre, post, p) && IdsNonEmpty(pre)
    requires id in pre.cards && pre.cards[id].boardId.Is? && pre.cards[id].boardId.s in p.defaults
    ensures id in post.cards && !Misplaced(post.cards[id], post.lanes)
  {
    CardsAreConserved(pre, post, p);
    DefaultIsALane(pre, post, p, pre.cards[id].boardId.s);
    hide Repaired, IdsNonEmpty, Misplaced;
    if post.cards[id].archived == No && Usable(Rendered(post.cards[id].swimlaneId)) {
      UnarchivedCardsAreHome(pre, post, p, id);
    }
    HomeIsNotMisplaced(post.cards[id], post.lanes);
  }

  /** A board whose only lanes carry no board id at all; these render as its own id. */
  ghost predicate NamedUndefined(s: Store) {
    "undefined" in s.boards && "undefined" in LiveBoards(s.lanes) && !HasLane(s.lanes, "undefined")
  }

  lemma LaneOfBoard(pre: Store, post: Store, p: Plan, b: string)
    requires Repaired(pre, post, p) && b in pre.boards
    ensures HasLane(post.lanes, b) <==> !(b == "undefined" && NamedUndefined(pre))
  {
    var id := p.defaults[b];
    assert IsLiveOf(post.lanes, id, b);
    if id !in pre.lanes {
      assert IsNewDefault(LiveBoards(pre.lanes), pre.boards.Keys, id, post.lanes[id], p.defaults);
      assert b !in LiveBoards(pre.lanes);
    } else {
      assert b in LiveBoards(pre.lanes);
      LanesOfLiveBoard(pre, post, p, b);
    }
    hide Repaired, LiveBoards;
    if post.lanes[id].boardId != Missing { assert HasLane(post.lanes, b); }
    if id in pre.lanes && HasLane(pre.lanes, b) { assert HasLane(post.lanes, b); }
  }

  /** A board with a live lane gets no other. */
  lemma LanesOfLiveBoard(pre: Store, post: Store, p: Plan, b: string)
    requires Repaired(pre, post, p) && b in LiveBoards(pre.lanes)
    ensures HasLane(post.lanes, b) <==> HasLane(pre.lanes, b)
  {
    forall id | id in post.lanes && id !in pre.lanes ensures Rendered(post.lanes[id].boardId) != b {
      assert IsNewDefault(LiveBoards(pre.lanes), pre.boards.Keys, id, post.lanes[id], p.defaults);
    }
    if id :| id in pre.lanes && pre.lanes[id].boardId != Missing && Rendered(pre.lanes[id].boardId) == b {
      assert post.lanes[id] == pre.lanes[id];
    }
  }

  /** Nothing the check objects to in one card. */
  predicate CleanCard(s: Store, id: string) {
    && id in s.cards && !Blank(s.cards[id].swimlaneId)
    && !Dangles(s.cards[id], s.lists.Keys) && !Misplaced(s.cards[id], s.lanes)
  }

  lemma CardIsClean(pre: Store, post: Store, p: Plan, id: string)
    requires Repaired(pre, post, p) && IdsNonEmpty(pre)
    requires id in pre.cards && pre.cards[id].boardId.Is? && pre.cards[id].boardId.s in pre.boards
    ensures CleanCard(post, id)
  {
    RunEquations(pre, post, p);
    hide Repaired, LiveBoards, IdsNonEmpty, Dangles, Misplaced, Repair;
    NoCardWithoutALane(pre, post, p, id);
    DanglingLeftExactlyWithoutBoard(pre, post, p, id);
    NotMisplaced(pre, post, p, id);
  }

  /** When every card names an existing board, the check finds nothing after a run, with exactly one exception: a
      board with the id "undefined" whose only lanes carry no board id. */
  lemma CheckIsCleanAfterRun(pre: Store, post: Store, p: Plan)
    requires Repaired(pre, post, p) && IdsNonEmpty(pre)
    requires forall id | id in pre.cards :: pre.cards[id].boardId.Is? && pre.cards[id].boardId.s in pre.boards
    ensures NeedsRepair(post) <==> NamedUndefined(pre)
  {
    RunEquations(pre, post, p);
    hide *;
    forall id | id in post.cards ensures CleanCard(post, id) {
      CardIsClean(pre, post, p, id);
    }
    OnlyLanesLeft(post);
    if b :| b in post.boards && !HasLane(post.lanes, b) { LaneOfBoard(pre, post, p, b); }
    UndefinedIsABoard(pre);
    if NamedUndefined(pre) { LaneOfBoard(pre, post, p, "undefined"); }
  }

  /** One board named "undefined" and one lane without a board id. */
  function UndefinedBoard(sort: Number): Store {
    Store(map["undefined" := Board(false, false)], map["s" := Lane(Missing, false, false, sort)], map[], map[])
  }

  lemma UndefinedIsNamed(sort: Number)
    ensures NamedUndefined(UndefinedBoard(sort)) && IdsNonEmpty(UndefinedBoard(sort))
    ensures NeedsRepair(UndefinedBoard(sort)) && UndefinedBoard(sort).cards == map[]
  {
    var lane := UndefinedBoard(sort).lanes["s"];
    assert Live(lane) && Rendered(lane.boardId) == "undefined";
  }

  /** On that store the check is true before and after every run. */
  lemma CheckStaysTrueOnUndefined(sort: Number, post: Store, p: Plan)
    requires Repaired(UndefinedBoard(sort), post, p)
    ensures NeedsRepair(UndefinedBoard(sort)) && NeedsRepair(post)
  {
    UndefinedIsNamed(sort);
    hide Repaired, LiveBoards;
    CheckIsCleanAfterRun(UndefinedBoard(sort), post, p);
    hide *;
  }

  /** With clean cards, what the check can still find is a board without any lane. */
  lemma OnlyLanesLeft(s: Store)
    requires forall id | id in s.cards :: CleanCard(s, id)
    ensures NeedsRepair(s) <==> exists b :: b in s.boards && !HasLane(s.lanes, b)
  {
    hide HasLane, Blank, Dangles, Misplaced;
    forall id | id in s.cards
      ensures !Blank(s.cards[id].swimlaneId) && !Dangles(s.cards[id], s.lists.Keys) && !Misplaced(s.cards[id], s.lanes)
    {
      assert CleanCard(s, id);
    }
  }

  lemma UndefinedIsABoard(s: Store)
    ensures NamedUndefined(s) ==> "undefined" in s.boards
  {}

  /** No card is created, deleted, re-boarded or (un)archived. */
  lemma CardsAreConserved(pre: Store, post: Store, p: Plan)
    requires Repaired(pre, post, p)
    ensures post.cards.Keys == pre.cards.Keys
    ensures forall id | id in pre.cards ::
              post.cards[id].boardId == pre.cards[id].boardId && post.cards[id].archived == pre.cards[id].archived
  {}

  /** A card with a list that does not dangle and a lane of its own board, live, archived or template, is untouched. */
  lemma HealthyCardsAreUntouched(pre: Store, post: Store, p: Plan, id: string)
    requires Repaired(pre, post, p) && id in pre.cards
    requires !Dangles(pre.cards[id], pre.lists.Keys) && !Blank(pre.cards[id].swimlaneId)
    requires pre.cards[id].swimlaneId.s in pre.lanes
    requires pre.lanes[pre.cards[id].swimlaneId.s].boardId == pre.cards[id].boardId
    ensures post.cards[id] == pre.cards[id]
  {}

  /** An archived card changes only to fill a blank lane or to leave a list that does not exist. */
  lemma ArchivedCardsKeepTheirLane(pre: Store, post: Store, p: Plan, id: string)
    requires Repaired(pre, post, p) && id in pre.cards && pre.cards[id].archived == Yes
    requires !Dangles(pre.cards[id], pre.lists.Keys) && !Blank(pre.cards[id].swimlaneId)
    ensures post.cards[id] == pre.cards[id]
  {}

  // ---- idempotence ----

  lemma DefaultsAreStable(pre: Store, post: Store, p: Plan)
    requires Repaired(pre, post, p)
    ensures LiveBoards(post.lanes) == p.defaults.Keys
  {
    forall b ensures b in LiveBoards(post.lanes) <==> b in p.defaults {
      if b in p.defaults { assert IsLiveOf(post.lanes, p.defaults[b], b); }
      if b in LiveBoards(post.lanes) {
        var id :| id in post.lanes && Live(post.lanes[id]) && Rendered(post.lanes[id].boardId) == b;
        if id in pre.lanes {
          assert b in LiveBoards(pre.lanes);
        } else {
          assert IsNewDefault(LiveBoards(pre.lanes), pre.boards.Keys, id, post.lanes[id], p.defaults);
        }
      }
    }
  }

  lemma HomeIsNotForeign(c: Card, lanes: map<string, Lane>, p: Plan)
    requires p.owners == Owners(lanes)
    requires c.archived == No && c.boardId.Is? && Usable(Rendered(c.swimlaneId)) ==>
               c.swimlaneId.s in lanes && Rendered(lanes[c.swimlaneId.s].boardId) == c.boardId.s
    requires c.boardId.Is? && c.boardId.s in p.defaults ==> !Blank(c.swimlaneId)
    requires Dangles(c, p.listIds) ==> !c.boardId.Is?
    ensures FillLane(c, p.defaults) == Rescue(c, p) == Repair(c, p) == c
  {}

  /** A second run, whatever its choices, repairs no card. */
  lemma SecondRunKeepsCard(pre: Store, post: Store, p: Plan, post2: Store, p2: Plan, id: string)
    requires Repaired(pre, post, p) && Repaired(post, post2, p2) && IdsNonEmpty(pre) && id in post.cards
    ensures FillLane(post.cards[id], p2.defaults) == Rescue(post.cards[id], p2) == Repair(post.cards[id], p2)
            == post.cards[id]
  {
    DefaultsAreStable(pre, post, p);
    RunEquations(pre, post, p);
    RunEquations(post, post2, p2);
    CardsAreConserved(pre, post, p);
    var c := post.cards[id];
    hide Repaired, LiveBoards, IdsNonEmpty, Dangles, Repair, FillLane, Rescue, RepairAll, Owners;
    DanglingLeftExactlyWithoutBoard(pre, post, p, id);
    assert c.boardId == pre.cards[id].boardId && p2.defaults.Keys == p.defaults.Keys;
    if c.boardId.Is? && c.boardId.s in p.defaults {
      NoCardWithoutALane(pre, post, p, id);
      if c.archived == No && Usable(Rendered(c.swimlaneId)) {
        UnarchivedCardsAreHome(pre, post, p, id);
      }
      HomeIsNotForeign(c, post.lanes, p2);
    } else {
      BoardlessCardIsKept(c, p2);
    }
  }

  lemma BoardlessCardIsKept(c: Card, p: Plan)
    requires c.boardId.Is? ==> c.boardId.s !in p.defaults
    requires Dangles(c, p.listIds) ==> !c.boardId.Is?
    ensures FillLane(c, p.defaults) == Rescue(c, p) == Repair(c, p) == c
  {}

  lemma NoNewDefaults(before: map<string, Lane>, live: set<string>, done: set<string>,
                      lanes: map<string, Lane>, defaults: map<string, string>)
    requires DefaultsFor(before, live, done, lanes, defaults) && done <= live
    ensures lanes == before
  {}

  lemma NoNewTargets(before: map<string, Column>, listed: set<string>, dangling: set<string>,
                     lists: map<string, Column>, p: Plan)
    requires TargetsFor(before, listed, dangling, lists, p) && dangling <= listed
    ensures lists == before
  {}

  /** Every board of a still dangling card has a list after the first run. */
  lemma DanglingBoardsAreListed(pre: Store, post: Store, p: Plan)
    requires Repaired(pre, post, p)
    ensures DanglingBoards(post.cards, post.lists.Keys) <= ListedBoards(post.lists)
  {
    RunEquations(pre, post, p);
    forall b | b in DanglingBoards(post.cards, post.lists.Keys) ensures b in ListedBoards(post.lists) {
      var id :| id in post.cards && post.cards[id].boardId != Missing && Dangles(post.cards[id], post.lists.Keys)
        && Rendered(post.cards[id].boardId) == b;
      DanglingLeftExactlyWithoutBoard(pre, post, p, id);
      assert post.cards[id].boardId == pre.cards[id].boardId;
      assert b in DanglingBoards(pre.cards, p.listIds);
      assert IsTarget(post.lists, p.targets[b], b);
    }
  }

  lemma SecondRunAddsNothing(pre: Store, post: Store, p: Plan, post2: Store, p2: Plan)
    requires Repaired(pre, post, p) && Repaired(post, post2, p2)
    ensures post2.lanes == post.lanes && post2.lists == post.lists
  {
    EveryBoardHasALiveLane(pre, post, p);
    DanglingBoardsAreListed(pre, post, p);
    hide DefaultsFor, TargetsFor, LiveBoards, DanglingBoards, ListedBoards, LeastSort, UsedLists;
    NoNewDefaults(post.lanes, LiveBoards(post.lanes), post.boards.Keys, post2.lanes, p2.defaults);
    NoNewTargets(post.lists, ListedBoards(post.lists), DanglingBoards(post.cards, p2.listIds), post2.lists, p2);
  }

  lemma NothingToFix(post: Store, post2: Store, p: Plan)
    requires forall id | id in post.cards ::
               FillLane(post.cards[id], p.defaults) == Rescue(post.cards[id], p) == Repair(post.cards[id], p)
                 == post.cards[id]
    requires post2.lanes == post.lanes
    ensures RepairAll(post.cards, p) == post.cards && FixedBy(post, post2, p) == 0
  {
    hide FillLane, Rescue, Repair;
    assert FillAll(post.cards, p) == post.cards && RescueAll(post.cards, p) == post.cards
           && RepairAll(post.cards, p) == post.cards;
    NothingChanged(post.cards, post.cards);
  }

  /** The migration is idempotent: a second run changes nothing and reports Fixed 0. */
  lemma SecondRunIsANoOp(pre: Store, post: Store, p: Plan, post2: Store, p2: Plan)
    requires Repaired(pre, post, p) && Repaired(post, post2, p2) && IdsNonEmpty(pre)
    ensures post2 == post && FixedBy(post, post2, p2) == 0
  {
    hide *;
    SecondRunAddsNothing(pre, post, p, post2, p2);
    RunEquations(post, post2, p2);
    forall id | id in post.cards
      ensures FillLane(post.cards[id], p2.defaults) == Rescue(post.cards[id], p2) == Repair(post.cards[id], p2)
              == post.cards[id]
    {
      SecondRunKeepsCard(pre, post, p, post2, p2, id);
    }
    NothingToFix(post, post2, p2);
  }
}
