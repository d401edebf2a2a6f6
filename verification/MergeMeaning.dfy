/**
 The merge of per-swimlane lists in terms of the documents' own fields: which boards a run processes, which
 list of a title it keeps, what it leaves of every list, board and card, and what it counts.
 */
module MergeMeaning {
  import opened MigrationStore
  import opened MergeLists

  // ---- symptoms ----

  /** Bound to a lane by a non-empty text, and no template. */
  predicate IsStamped(l: Column) {
    l.swimlaneId.Is? && l.swimlaneId.s != "" && !l.template
  }

  predicate InUse(l: Column, b: string) {
    l.boardId == Is(b) && !l.template && !l.archived
  }

  /** A card of the list is in some other lane than the list names. */
  ghost predicate HoldsAStray(s: Store, id: string)
    requires id in s.lists
  {
    && s.lists[id].swimlaneId.Is? && s.lists[id].swimlaneId.s != ""
    && exists c :: c in s.cards && s.cards[c].listId == Is(id) && s.cards[c].swimlaneId.Is?
                   && s.cards[c].swimlaneId.s !in {"", s.lists[id].swimlaneId.s}
  }

  ghost predicate TwoOfATitle(s: Store, b: string) {
    exists x, y :: x in s.lists && y in s.lists && x != y && InUse(s.lists[x], b) && InUse(s.lists[y], b)
                   && Rendered(s.lists[x].title) == Rendered(s.lists[y].title)
  }

  ghost predicate HasAStampedList(s: Store, b: string) {
    exists id :: id in s.lists && IsStamped(s.lists[id]) && s.lists[id].boardId != Missing
                 && Rendered(s.lists[id].boardId) == b
  }

  lemma StampMeans(l: Column)
    ensures Stamped(l) <==> IsStamped(l)
  {
    match l.swimlaneId
    case Missing =>
    case Null =>
    case Is(s) =>
  }

  lemma SymptomsMean(s: Store, b: string)
    ensures Duplicate(s.lists, b) <==> TwoOfATitle(s, b)
    ensures b in StampedBoards(s.lists) <==> HasAStampedList(s, b)
  {
    if x, y :| x in s.lists && y in s.lists && x != y && InUse(s.lists[x], b) && InUse(s.lists[y], b)
               && Rendered(s.lists[x].title) == Rendered(s.lists[y].title) {
      assert ActiveOn(s.lists, x, b) && ActiveOn(s.lists, y, b) && SameTitle(s.lists, x, y);
    }
    if id :| id in s.lists && IsStamped(s.lists[id]) && s.lists[id].boardId != Missing
             && Rendered(s.lists[id].boardId) == b {
      assert Stamped(s.lists[id]);
    }
    if id :| id in s.lists && Stamped(s.lists[id]) && s.lists[id].boardId != Missing
             && Rendered(s.lists[id].boardId) == b {
      StampMeans(s.lists[id]);
    }
  }

  lemma StrayMeans(s: Store, id: string)
    requires id in s.lists
    ensures Mismatched(s.lists, s.cards, id) <==> HoldsAStray(s, id)
  {
    if c :| c in s.cards && s.cards[c].listId == Is(id) && s.cards[c].swimlaneId.Is?
            && s.cards[c].swimlaneId.s !in {"", if s.lists[id].swimlaneId.Is? then s.lists[id].swimlaneId.s else ""} {
      assert !Blank(s.cards[c].swimlaneId);
    }
  }

  /** The boards a run processes: the marked ones, and of those with a stamped list the ones with two lists in use
      of one title, or with a list in use whose cards are in other lanes. */
  lemma ProcessedExactlyWhen(s: Store, b: string)
    ensures b in BoardsToProcess(s) <==>
              || (b in s.boards && (s.boards[b].fixMissingLists || s.boards[b].comprehensiveMigration))
              || (HasAStampedList(s, b)
                  && (TwoOfATitle(s, b)
                      || exists id :: id in s.lists && InUse(s.lists[id], b) && HoldsAStray(s, id)))
  {
    SymptomsMean(s, b);
    forall id | id in s.lists ensures Mismatched(s.lists, s.cards, id) <==> HoldsAStray(s, id) { StrayMeans(s, id); }
    hide Mismatched, HoldsAStray, HasAStampedList, TwoOfATitle, StampedBoards, Duplicate;
  }

  /** What the check asks: it also looks at archived lists. */
  lemma CheckAsks(s: Store)
    ensures NeedsMerge(s) <==>
              || (exists b :: b in s.boards && (s.boards[b].fixMissingLists || s.boards[b].comprehensiveMigration))
              || (exists b :: HasAStampedList(s, b)
                    && (TwoOfATitle(s, b)
                        || exists id :: id in s.lists && s.lists[id].boardId == Is(b) && !s.lists[id].template
                                        && HoldsAStray(s, id)))
  {
    forall b ensures (Duplicate(s.lists, b) <==> TwoOfATitle(s, b))
                     && (b in StampedBoards(s.lists) <==> HasAStampedList(s, b)) { SymptomsMean(s, b); }
    forall id | id in s.lists ensures Mismatched(s.lists, s.cards, id) <==> HoldsAStray(s, id) { StrayMeans(s, id); }
    hide Mismatched, HoldsAStray, HasAStampedList, TwoOfATitle, StampedBoards, Duplicate;
  }

  // ---- lists and boards after a run ----

  /** A list stays as it is but for the stamp of a processed board, or is gone. */
  lemma ListsEndAs(pre: Store, post: Store, m: Merges, id: string)
    requires Merged(pre, post, m)
    ensures id in post.lists <==> id in pre.lists && id !in m
    ensures id in post.lists ==>
              var l := pre.lists[id];
              post.lists[id] ==
              if IsStamped(l) && l.boardId.Is? && l.boardId.s in BoardsToProcess(pre)
              then l.(swimlaneId := Is("")) else l
  {
    hide SoundMerges, FullyMerged, BestKept, BoardsToProcess;
    if id in pre.lists { assert Stamped(pre.lists[id]) <==> IsStamped(pre.lists[id]); }
  }

  /** Only lists in use go, on processed boards, into a list in use of their board and title that stays. */
  lemma GoneIntoAnother(pre: Store, post: Store, m: Merges, x: string)
    requires Merged(pre, post, m) && x in m
    ensures x in pre.lists && m[x] in pre.lists && m[x] !in m && pre.lists[x].boardId.Is?
    ensures var b := pre.lists[x].boardId.s;
            && b in BoardsToProcess(pre) && InUse(pre.lists[x], b) && InUse(pre.lists[m[x]], b)
            && Rendered(pre.lists[x].title) == Rendered(pre.lists[m[x]].title)
  {
    hide FullyMerged, BestKept, BoardsToProcess;
    assert Mergeable(pre.lists, x, m[x], pre.lists[x].boardId.s);
  }

  /** Of the lists in use of one title of a processed board exactly one stays, and the others go into it. */
  lemma OneOfATitleStays(pre: Store, post: Store, m: Merges, b: string, x: string, y: string)
    requires Merged(pre, post, m) && b in BoardsToProcess(pre) && x in pre.lists && y in pre.lists && x != y
    requires InUse(pre.lists[x], b) && InUse(pre.lists[y], b)
    requires Rendered(pre.lists[x].title) == Rendered(pre.lists[y].title)
    ensures x in m || y in m
    ensures y !in m ==> x in m && m[x] == y
    ensures x in m && y in m ==> m[x] == m[y]
  {
    assert ActiveOn(pre.lists, x, b) && ActiveOn(pre.lists, y, b) && SameTitle(pre.lists, x, y);
    hide BoardsToProcess, BestKept;
    if x in m { GoneToOne(pre, post, m, b, x, y); }
    if y in m { GoneToOne(pre, post, m, b, y, x); }
  }

  lemma GoneToOne(pre: Store, post: Store, m: Merges, b: string, x: string, y: string)
    requires Merged(pre, post, m) && b in BoardsToProcess(pre) && x in m && y in pre.lists && x in pre.lists
    requires InUse(pre.lists[x], b) && InUse(pre.lists[y], b)
    requires Rendered(pre.lists[x].title) == Rendered(pre.lists[y].title)
    ensures y in m ==> m[y] == m[x]
    ensures y !in m ==> m[x] == y
  {
    GoneIntoAnother(pre, post, m, x);
    if y in m { GoneIntoAnother(pre, post, m, y); }
    hide BoardsToProcess, BestKept, SoundMerges;
    var k := if y in m then m[y] else y;
    assert ActiveOn(pre.lists, m[x], b) && ActiveOn(pre.lists, k, b) && SameTitle(pre.lists, m[x], k);
  }

  /** Dates and sort keys of x's title are numbers. */
  ghost predicate Dated(s: Store, x: string)
    requires x in s.lists
  {
    forall y | y in s.lists && s.lists[y].boardId == s.lists[x].boardId && !s.lists[y].template && !s.lists[y].archived
               && Rendered(s.lists[y].title) == Rendered(s.lists[x].title) ::
      s.lists[y].createdAt.Num? && s.lists[y].sort.Num?
  }

  /** A list without a stamp is kept before one with, then the older one, then the first by sort. */
  lemma TheRightOneStays(pre: Store, post: Store, m: Merges, x: string)
    requires Merged(pre, post, m) && x in m && x in pre.lists && m[x] in pre.lists
    ensures var gone, kept := pre.lists[x], pre.lists[m[x]];
            && (gone.swimlaneId in {Missing, Null, Is("")} ==> kept.swimlaneId in {Missing, Null, Is("")})
            && (Dated(pre, x)
                && (gone.swimlaneId in {Missing, Null, Is("")} <==> kept.swimlaneId in {Missing, Null, Is("")})
                ==> && gone.createdAt.Num? && kept.createdAt.Num? && gone.sort.Num? && kept.sort.Num?
                    && (kept.createdAt.n < gone.createdAt.n
                        || (kept.createdAt.n == gone.createdAt.n && kept.sort.n <= gone.sort.n)))
  {
    GoneIntoAnother(pre, post, m, x);
    assert WellKept(pre.lists, x, m[x]);
    hide Merged, BoardsToProcess;
    assert Dated(pre, x) ==> NumbersBeside(pre.lists, x);
  }

  /** The markers of processed boards are cleared, other boards are as they were. */
  lemma BoardsEndAs(pre: Store, post: Store, m: Merges, b: string)
    requires Merged(pre, post, m)
    ensures b in post.boards <==> b in pre.boards
    ensures b in post.boards ==>
              post.boards[b] == if b in BoardsToProcess(pre) then Board(false, false) else pre.boards[b]
  {
    hide SoundMerges, FullyMerged, BestKept, BoardsToProcess;
  }

  /** A card follows its list, and is otherwise as it was. */
  lemma CardsEndAs(pre: Store, post: Store, m: Merges, id: string)
    requires Merged(pre, post, m)
    ensures id in post.cards <==> id in pre.cards
    ensures id in post.cards ==>
              var c := pre.cards[id];
              post.cards[id] == if c.listId.Is? && c.listId.s in m then c.(listId := Is(m[c.listId.s])) else c
  {
    hide SoundMerges, FullyMerged, BestKept, BoardsToProcess;
  }

  /** Fixed counts the lists that are gone and the stamps that were cleared. */
  lemma FixedCounts(pre: Store, post: Store, m: Merges)
    requires Merged(pre, post, m)
    ensures FixedBy(pre, post, m)
            == |m| + |set id | id in post.lists && id in pre.lists && IsStamped(pre.lists[id])
                               && pre.lists[id].boardId.Is? && pre.lists[id].boardId.s in BoardsToProcess(pre)|
  {
    forall id | id in post.lists
      ensures id in pre.lists && (post.lists[id] != pre.lists[id] <==>
                IsStamped(pre.lists[id]) && pre.lists[id].boardId.Is?
                && pre.lists[id].boardId.s in BoardsToProcess(pre))
    {
      ListsEndAs(pre, post, m, id);
    }
    hide Merged, BoardsToProcess, IsStamped;
    assert Restamped(pre.lists, post.lists)
        == set id | id in post.lists && id in pre.lists && IsStamped(pre.lists[id]) && pre.lists[id].boardId.Is?
                    && pre.lists[id].boardId.s in BoardsToProcess(pre);
  }
}
