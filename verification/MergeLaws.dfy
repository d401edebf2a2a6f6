/**
 What a completed merge guarantees: every card keeps its column, no processed board has
 two active lists with one title, a second run does nothing, the check can then only
 complain about archived lists, and the swimlane check is unaffected.
 */
module MergeLaws {
  import opened MigrationStore
  import opened MergeLists
  import SwimlaneStructure

  /** A card in an existing list ends in an existing list with the same board, title and archived
      state; its board, lane and archived flag are untouched. */
  lemma CardsKeepTheirColumn(pre: Store, post: Store, m: Merges, id: string)
    requires Merged(pre, post, m) && id in pre.cards
    requires pre.cards[id].listId.Is? && pre.cards[id].listId.s in pre.lists
    ensures id in post.cards && post.cards[id].listId.Is? && post.cards[id].listId.s in post.lists
    ensures var before, after := pre.lists[pre.cards[id].listId.s], post.lists[post.cards[id].listId.s];
            after.boardId == before.boardId && Rendered(after.title) == Rendered(before.title)
            && after.archived == before.archived && after.template == before.template
    ensures post.cards[id] == pre.cards[id].(listId := post.cards[id].listId)
  {
    hide FullyMerged, BestKept, BoardsToProcess;
    var l := pre.cards[id].listId.s;
    if l in m { assert m[l] !in m && Mergeable(pre.lists, l, m[l], pre.lists[l].boardId.s); }
  }

  /** Cards are neither created nor deleted, and lists disappear only by being merged. */
  lemma NothingElseDisappears(pre: Store, post: Store, m: Merges)
    requires Merged(pre, post, m)
    ensures post.cards.Keys == pre.cards.Keys && post.boards.Keys == pre.boards.Keys && post.lanes == pre.lanes
    ensures post.lists.Keys == pre.lists.Keys - m.Keys && m.Values <= post.lists.Keys
  {
    hide FullyMerged, BestKept, BoardsToProcess;
    forall x | x in m ensures m[x] in post.lists {
      assert Mergeable(pre.lists, x, m[x], pre.lists[x].boardId.s);
    }
  }

  /** A shared list is never merged into a stamped one, and where the dates and sort keys of a title's lists are
      numbers the list kept is one to which none is preferred. */
  lemma SharedListsSurvive(pre: Store, post: Store, m: Merges, x: string)
    requires Merged(pre, post, m) && x in m
    ensures x in pre.lists && m[x] in pre.lists && (Shared(pre.lists[x]) ==> Shared(pre.lists[m[x]]))
    ensures NumbersBeside(pre.lists, x) ==> !Preferred(pre.lists[x], pre.lists[m[x]])
  {
    hide FullyMerged, BoardsToProcess;
    assert Mergeable(pre.lists, x, m[x], pre.lists[x].boardId.s);
    assert WellKept(pre.lists, x, m[x]);
  }

  /** A board that was processed has no two active lists with one title, no stamped list and no marker. */
  lemma ProcessedBoardsAreClean(pre: Store, post: Store, m: Merges, b: string)
    requires Merged(pre, post, m) && b in BoardsToProcess(pre)
    ensures !Duplicate(post.lists, b)
    ensures forall id | id in post.lists && post.lists[id].boardId == Is(b) :: !Stamped(post.lists[id])
    ensures b in post.boards ==> !Marked(post.boards[b])
  {
    var done := BoardsToProcess(pre);
    hide BoardsToProcess, SoundMerges, BestKept;
    forall x, y | ActiveOn(post.lists, x, b) && ActiveOn(post.lists, y, b) && SameTitle(post.lists, x, y)
      ensures x == y
    {
      assert ActiveOn(pre.lists, x, b) && ActiveOn(pre.lists, y, b) && SameTitle(pre.lists, x, y);
      assert b in done && x !in m && y !in m;
    }
  }

  /** A board left alone looks the same afterwards: same stamped lists, same symptoms. */
  lemma OtherBoardsAreUntouched(pre: Store, post: Store, m: Merges, b: string)
    requires Merged(pre, post, m) && b !in BoardsToProcess(pre)
    ensures Symptom(post.lists, post.cards, b) <==> Symptom(pre.lists, pre.cards, b)
    ensures b in StampedBoards(post.lists) ==> b in StampedBoards(pre.lists)
    ensures b in pre.boards ==> post.boards[b] == pre.boards[b]
  {
    SymptomIsLocal(pre, post, m, BoardsToProcess(pre), b);
    hide BoardsToProcess, Symptom, SoundMerges, BestKept, FullyMerged;
  }

  /** No board that carried a marker or a stamped list is left with two active lists of one title. */
  lemma NoDuplicateTitlesLeft(pre: Store, post: Store, m: Merges, b: string)
    requires Merged(pre, post, m) && b in MarkedBoards(pre.boards) + StampedBoards(pre.lists)
    ensures !Duplicate(post.lists, b)
  {
    if b in BoardsToProcess(pre) {
      ProcessedBoardsAreClean(pre, post, m, b);
    } else {
      OtherBoardsAreUntouched(pre, post, m, b);
    }
  }

  /** After a run no board is due: a second run processes none. */
  lemma NothingIsDueAfterwards(pre: Store, post: Store, m: Merges)
    requires Merged(pre, post, m)
    ensures BoardsToProcess(post) == {}
  {
    forall b ensures b !in BoardsToProcess(post) {
      if b in BoardsToProcess(pre) {
        ProcessedBoardsAreClean(pre, post, m, b);
        NoSymptomOnCleanBoard(post, b);
      } else {
        OtherBoardsAreUntouched(pre, post, m, b);
        NotDue(pre, post, m, b);
      }
    }
  }

  lemma NoSymptomOnCleanBoard(s: Store, b: string)
    requires !Duplicate(s.lists, b)
    requires forall id | id in s.lists && s.lists[id].boardId == Is(b) :: !Stamped(s.lists[id])
    requires b in s.boards ==> !Marked(s.boards[b])
    ensures b !in BoardsToProcess(s)
  {
    hide Duplicate;
    forall id | ActiveOn(s.lists, id, b) ensures !Mismatched(s.lists, s.cards, id) {
      assert !Stamped(s.lists[id]);
    }
  }

  lemma NotDue(pre: Store, post: Store, m: Merges, b: string)
    requires Merged(pre, post, m) && b !in BoardsToProcess(pre)
    requires Symptom(post.lists, post.cards, b) <==> Symptom(pre.lists, pre.cards, b)
    requires b in StampedBoards(post.lists) ==> b in StampedBoards(pre.lists)
    requires b in pre.boards ==> post.boards[b] == pre.boards[b]
    ensures b !in BoardsToProcess(post)
  {
    hide Symptom, SoundMerges, BestKept, FullyMerged, StampedBoards;
    assert post.boards.Keys == pre.boards.Keys;
  }

  /** A second run changes nothing and reports Fixed 0. */
  lemma SecondRunIsANoOp(pre: Store, post: Store, m: Merges, post2: Store, m2: Merges)
    requires Merged(pre, post, m) && Merged(post, post2, m2)
    ensures post2 == post && FixedBy(post, post2, m2) == 0
  {
    NothingIsDueAfterwards(pre, post, m);
    hide BoardsToProcess;
    NoBoardsNoChange(post, post2, m2);
  }

  lemma NoBoardsNoChange(s: Store, s': Store, m: Merges)
    requires MergedSoFar(s, s', m, {})
    ensures s' == s && FixedBy(s, s', m) == 0
  {
    assert m == map[] by { assert forall x :: x !in m; }
    NothingProcessed(s);
    hide SoundMerges, BestKept, FullyMerged;
  }

  /** An archived list of board b, no template, that is mismatched. */
  ghost predicate ArchivedMismatch(s: Store, b: string, id: string) {
    && id in s.lists && s.lists[id].boardId == Is(b) && s.lists[id].archived && !s.lists[id].template
    && Mismatched(s.lists, s.cards, id)
  }

  /** Of what the check looks for, a run leaves nothing but archived lists. */
  lemma CheckAfterRunIsAboutArchivedLists(pre: Store, post: Store, m: Merges)
    requires Merged(pre, post, m)
    ensures NeedsMerge(post) <==> exists b, id :: b in StampedBoards(post.lists) && ArchivedMismatch(post, b, id)
  {
    NothingIsDueAfterwards(pre, post, m);
    hide Merged, StampedBoards, Mismatched;
    forall b | b in post.boards ensures !Marked(post.boards[b]) {
      assert b !in BoardsToProcess(post);
    }
    forall b | b in StampedBoards(post.lists) ensures !Duplicate(post.lists, b)
      ensures forall id :: ActiveOn(post.lists, id, b) ==> !Mismatched(post.lists, post.cards, id)
    {
      assert b !in BoardsToProcess(post);
      assert !Symptom(post.lists, post.cards, b);
    }
    if b :| b in StampedBoards(post.lists) && AnyMismatch(post.lists, post.cards, b) {
      var id :| id in post.lists && post.lists[id].boardId == Is(b) && !post.lists[id].template
                && Mismatched(post.lists, post.cards, id);
      assert ArchivedMismatch(post, b, id);
    }
    if b, id :| b in StampedBoards(post.lists) && ArchivedMismatch(post, b, id) {
      assert AnyMismatch(post.lists, post.cards, b);
    }
  }

  lemma MismatchedIsStamped(s: Store, b: string, id: string)
    requires ArchivedMismatch(s, b, id)
    ensures Stamped(s.lists[id]) && b in StampedBoards(s.lists)
  {
    assert !Shared(s.lists[id]);
    assert Rendered(s.lists[id].boardId) == b;
  }

  /** The archived lists of a board that is not processed stay as they are, with their mismatches. */
  lemma ArchivedMismatchIsKept(pre: Store, post: Store, m: Merges, b: string, id: string)
    requires Merged(pre, post, m) && b !in BoardsToProcess(pre)
    ensures ArchivedMismatch(post, b, id) <==> ArchivedMismatch(pre, b, id)
  {
    OtherBoardsAsBefore(pre, post, m, BoardsToProcess(pre), b);
    if id in pre.lists && pre.lists[id].boardId == Is(b) {
      MismatchIsLocal(pre, post, m, BoardsToProcess(pre), b, id);
    }
    hide Merged, MergedSoFar, BoardsToProcess, Mismatched;
  }

  /** After a run the check is true exactly when, before it, an archived list was mismatched on a board that the
      run passes over: one with stamped lists, but without marker and symptom. */
  lemma CheckAfterRunSeesOnlyArchivedLists(pre: Store, post: Store, m: Merges)
    requires Merged(pre, post, m)
    ensures NeedsMerge(post) <==>
              exists b, id ::
                b in StampedBoards(pre.lists) && b !in BoardsToProcess(pre) && ArchivedMismatch(pre, b, id)
  {
    CheckAfterRunIsAboutArchivedLists(pre, post, m);
    if b, id :| b in StampedBoards(post.lists) && ArchivedMismatch(post, b, id) {
      MismatchedIsStamped(post, b, id);
      if b in BoardsToProcess(pre) {
        ProcessedBoardsAreClean(pre, post, m, b);
        assert false;
      }
      OtherBoardsAreUntouched(pre, post, m, b);
      ArchivedMismatchIsKept(pre, post, m, b, id);
    }
    hide Merged, BoardsToProcess, StampedBoards, ArchivedMismatch, NeedsMerge;
    if b, id :| b in StampedBoards(pre.lists) && b !in BoardsToProcess(pre) && ArchivedMismatch(pre, b, id) {
      ArchivedMismatchIsKept(pre, post, m, b, id);
      MismatchedIsStamped(post, b, id);
    }
  }

  /** One archived list, stamped with a lane, and a card in it that is in another lane. */
  function ArchivedLeftover(): Store {
    Store(map["b" := Board(false, false)], map[],
          map["l" := Column(Is("b"), Is("s"), Is("Done"), true, false, Num(0.0), Num(0.0))],
          map["c" := Card(Is("b"), Is("l"), Is("t"), No)])
  }

  /** On that store no run ever makes the check false. */
  lemma CheckStaysTrueOnLeftover(post: Store, m: Merges)
    requires Merged(ArchivedLeftover(), post, m)
    ensures NeedsMerge(post)
  {
    var pre := ArchivedLeftover();
    assert pre.cards["c"].listId == Is("l") && pre.lists["l"].swimlaneId == Is("s");
    assert ArchivedMismatch(pre, "b", "l");
    MismatchedIsStamped(pre, "b", "l");
    assert forall id :: !ActiveOn(pre.lists, id, "b");
    assert "b" !in BoardsToProcess(pre);
    CheckAfterRunSeesOnlyArchivedLists(pre, post, m);
  }

  /** The merge neither breaks nor repairs what the swimlane check looks at. */
  lemma SwimlaneCheckIsUnaffected(pre: Store, post: Store, m: Merges)
    requires Merged(pre, post, m)
    ensures SwimlaneStructure.NeedsRepair(post) <==> SwimlaneStructure.NeedsRepair(pre)
  {
    NothingElseDisappears(pre, post, m);
    forall id | id in pre.cards
      ensures post.cards[id].boardId == pre.cards[id].boardId && post.cards[id].swimlaneId == pre.cards[id].swimlaneId
              && post.cards[id].archived == pre.cards[id].archived
      ensures SwimlaneStructure.Dangles(post.cards[id], post.lists.Keys)
              <==> SwimlaneStructure.Dangles(pre.cards[id], pre.lists.Keys)
    {
      DanglingIsUnaffected(pre, post, m, id);
    }
    hide Merged, SwimlaneStructure.Dangles, SwimlaneStructure.Owners;
    assert forall id | id in pre.cards ::
        SwimlaneStructure.Misplaced(post.cards[id], post.lanes)
        <==> SwimlaneStructure.Misplaced(pre.cards[id], pre.lanes);
    hide SwimlaneStructure.Misplaced, SwimlaneStructure.HasLane;
  }

  lemma DanglingIsUnaffected(pre: Store, post: Store, m: Merges, id: string)
    requires Merged(pre, post, m) && id in pre.cards
    ensures id in post.cards && post.cards[id] == pre.cards[id].(listId := post.cards[id].listId)
    ensures SwimlaneStructure.Dangles(post.cards[id], post.lists.Keys)
            <==> SwimlaneStructure.Dangles(pre.cards[id], pre.lists.Keys)
  {
    hide FullyMerged, BestKept, BoardsToProcess;
    var c := pre.cards[id];
    if c.listId.Is? && c.listId.s in m {
      assert Mergeable(pre.lists, c.listId.s, m[c.listId.s], pre.lists[c.listId.s].boardId.s);
    }
  }
}
