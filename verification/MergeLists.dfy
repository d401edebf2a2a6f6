/**
 The merge-per-swimlane-lists migration (internal/migrations/structure.go): lists of one
 board with the same title are merged, their cards relinked, stamps and markers cleared.
 */
module MergeLists {
  import opened MigrationStore

  /** structuralTruthy of a list's swimlaneId. */
  predicate Shared(l: Column) {
    Blank(l.swimlaneId)
  }

  /** structuralStamped: bound to a lane, and not a template. */
  predicate Stamped(l: Column) {
    !Blank(l.swimlaneId) && !l.template
  }

  predicate Marked(b: Board) {
    b.fixMissingLists || b.comprehensiveMigration
  }

  /** An unarchived list of board b that is no template. */
  predicate ActiveOn(lists: map<string, Column>, id: string, b: string) {
    id in lists && lists[id].boardId == Is(b) && !lists[id].template && !lists[id].archived
  }

  predicate SameTitle(lists: map<string, Column>, x: string, y: string)
    requires x in lists && y in lists
  {
    Rendered(lists[x].title) == Rendered(lists[y].title)
  }

  /** A stamped list with a card in another lane. */
  predicate Mismatched(lists: map<string, Column>, cards: Cards, id: string)
    requires id in lists
  {
    !Shared(lists[id])
    && exists c :: c in cards && cards[c].listId == Is(id) && !Blank(cards[c].swimlaneId)
                   && cards[c].swimlaneId != lists[id].swimlaneId
  }

  ghost predicate Duplicate(lists: map<string, Column>, b: string) {
    exists x, y :: ActiveOn(lists, x, b) && ActiveOn(lists, y, b) && x != y && SameTitle(lists, x, y)
  }

  /** What makes the run touch a board that carries no marker. */
  ghost predicate Symptom(lists: map<string, Column>, cards: Cards, b: string) {
    Duplicate(lists, b) || exists id :: ActiveOn(lists, id, b) && Mismatched(lists, cards, id)
  }

  /** The order in which a group's lists are preferred: shared first, then older, then by sort. */
  predicate Preferred(a: Column, z: Column) {
    if Shared(a) != Shared(z) then Shared(a)
    else if a.createdAt.Num? && z.createdAt.Num? && a.createdAt.n != z.createdAt.n then a.createdAt.n < z.createdAt.n
    else LessThan(a.sort, z.sort)
  }

  /** Removed list ids, each with the id of the list that took its cards. */
  type Merges = map<string, string>

  function Relink(c: Card, m: Merges): Card {
    if c.listId.Is? && c.listId.s in m then c.(listId := Is(m[c.listId.s])) else c
  }

  function RelinkAll(cards: Cards, m: Merges): Cards {
    map id | id in cards :: Relink(cards[id], m)
  }

  function Unstamp(l: Column, processed: set<string>): Column {
    if Stamped(l) && l.boardId.Is? && l.boardId.s in processed then l.(swimlaneId := Is("")) else l
  }

  function KeptLists(lists: map<string, Column>, m: Merges, processed: set<string>): map<string, Column> {
    map id | id in lists && id !in m :: Unstamp(lists[id], processed)
  }

  function ClearMarkers(boards: map<string, Board>, processed: set<string>): map<string, Board> {
    map b | b in boards :: if b in processed then Board(false, false) else boards[b]
  }

  /** Both are active lists of board b with one title. */
  predicate Mergeable(lists: map<string, Column>, gone: string, kept: string, b: string) {
    ActiveOn(lists, gone, b) && ActiveOn(lists, kept, b) && SameTitle(lists, gone, kept)
  }

  /** Merges join active lists of one processed board with one title, never into a removed list. */
  ghost predicate SoundMerges(lists: map<string, Column>, m: Merges, processed: set<string>) {
    forall x | x in m :: m[x] !in m && x in lists && lists[x].boardId.Is? && lists[x].boardId.s in processed
                         && Mergeable(lists, x, m[x], lists[x].boardId.s)
  }

  /** On a processed board one list of every title is left. */
  ghost predicate FullyMerged(lists: map<string, Column>, m: Merges, processed: set<string>) {
    forall b, x, y | b in processed && ActiveOn(lists, x, b) && ActiveOn(lists, y, b) && SameTitle(lists, x, y) ::
      x in m || y in m || x == y
  }

  /** The active lists of x's board and title have creation dates and sort keys that are numbers. */
  ghost predicate NumbersBeside(lists: map<string, Column>, x: string)
    requires x in lists
  {
    forall y | y in lists && lists[y].boardId == lists[x].boardId && SameTitle(lists, x, y)
               && !lists[y].template && !lists[y].archived ::
      lists[y].createdAt.Num? && lists[y].sort.Num?
  }

  /** `gone` was rightly given up for `kept`: a shared list only for a shared one, and where dates and sort keys
      are numbers, never for one it is preferred to. */
  ghost predicate WellKept(lists: map<string, Column>, gone: string, kept: string)
    requires gone in lists && kept in lists
  {
    && (Shared(lists[gone]) ==> Shared(lists[kept]))
    && (NumbersBeside(lists, gone) ==> !Preferred(lists[gone], lists[kept]))
  }

  ghost predicate BestKept(lists: map<string, Column>, m: Merges) {
    forall x | x in m && x in lists && m[x] in lists :: WellKept(lists, x, m[x])
  }

  /** The store after the boards in `processed` were merged. */
  ghost predicate MergedSoFar(pre: Store, post: Store, m: Merges, processed: set<string>) {
    && SoundMerges(pre.lists, m, processed)
    && FullyMerged(pre.lists, m, processed)
    && BestKept(pre.lists, m)
    && post == Store(ClearMarkers(pre.boards, processed), pre.lanes,
                     KeptLists(pre.lists, m, processed), RelinkAll(pre.cards, m))
  }

  function MarkedBoards(boards: map<string, Board>): set<string> {
    set b | b in boards && Marked(boards[b])
  }

  function StampedBoards(lists: map<string, Column>): set<string> {
    set id | id in lists && Stamped(lists[id]) && lists[id].boardId != Missing :: Rendered(lists[id].boardId)
  }

  ghost function BoardsToProcess(s: Store): set<string> {
    MarkedBoards(s.boards) + set b | b in StampedBoards(s.lists) && Symptom(s.lists, s.cards, b)
  }

  /** Everything a completed run promises. */
  ghost predicate Merged(pre: Store, post: Store, m: Merges) {
    MergedSoFar(pre, post, m, BoardsToProcess(pre))
  }

  /** Fixed: the lists removed and the stamps cleared. */
  function FixedBy(pre: Store, post: Store, m: Merges): nat {
    |m| + |Restamped(pre.lists, post.lists)|
  }

  function Restamped(before: map<string, Column>, after: map<string, Column>): set<string> {
    set id | id in before && id in after && after[id] != before[id]
  }

  // ---- merging one list into another ----

  /** The state of one board's merging: lists in `m` are gone and their cards relinked. */
  ghost predicate Merging(lists0: map<string, Column>, cards0: Cards, lists: map<string, Column>, cards: Cards,
                          m: Merges, b: string)
  {
    && (forall x | x in m :: m[x] !in m && Mergeable(lists0, x, m[x], b))
    && BestKept(lists0, m)
    && lists == lists0 - m.Keys
    && cards == RelinkAll(cards0, m)
  }

  lemma OneMoreMerge(lists0: map<string, Column>, cards0: Cards, lists: map<string, Column>, cards: Cards,
                     cards': Cards, m: Merges, b: string, kept: string, gone: string)
    requires Merging(lists0, cards0, lists, cards, m, b)
    requires Mergeable(lists, gone, kept, b) && kept != gone
    requires forall x | x in m :: m[x] != gone
    requires gone in lists0 && kept in lists0 && WellKept(lists0, gone, kept)
    requires cards' == map id | id in cards ::
             if cards[id].listId == Is(gone) then cards[id].(listId := Is(kept)) else cards[id]
    ensures Merging(lists0, cards0, lists - {gone}, cards', m[gone := kept], b)
  {
    var m' := m[gone := kept];
    assert lists - {gone} == lists0 - m'.Keys;
    hide WellKept;
    forall id | id in cards0 ensures cards'[id] == Relink(cards0[id], m') {
      assert cards[id] == Relink(cards0[id], m);
    }
  }

  /** One element of g[1:]: relink its cards, delete the list. */
  method MergeInto(db: Database, ghost lists0: map<string, Column>, ghost cards0: Cards, ghost m: Merges,
                   ghost b: string, kept: string, gone: string)
    requires Merging(lists0, cards0, db.lists, db.cards, m, b)
    requires Mergeable(db.lists, gone, kept, b) && kept != gone
    requires forall x | x in m :: m[x] != gone
    requires gone in lists0 && kept in lists0 && WellKept(lists0, gone, kept)
    modifies db`lists, db`cards
    ensures Merging(lists0, cards0, db.lists, db.cards, m[gone := kept], b)
    ensures db.lists == old(db.lists) - {gone}
  {
    ghost var lists, cards := db.lists, db.cards;
    hide Merging, WellKept;
    var _ := db.UpdateCards((c: Card) => c.listId == Is(gone), (c: Card) => c.(listId := Is(kept)));
    OneMoreMerge(lists0, cards0, lists, cards, db.cards, m, b, kept, gone);
    db.lists := db.lists - {gone};
  }

  // ---- one title group ----

  function Prefers(lists: map<string, Column>): (string, string) -> bool {
    (x, y) => x in lists && y in lists && Preferred(lists[x], lists[y])
  }

  lemma PreferredIsNegativelyTransitive(a: Column, b: Column, c: Column)
    requires a.createdAt.Num? && b.createdAt.Num? && c.createdAt.Num? && a.sort.Num? && b.sort.Num? && c.sort.Num?
    requires Preferred(a, b)
    ensures Preferred(a, c) || Preferred(c, b)
  {}

  lemma NumbersOrder(lists: map<string, Column>, g: seq<string>)
    requires forall x | x in g :: x in lists && lists[x].createdAt.Num? && lists[x].sort.Num?
    ensures Orders(Prefers(lists), g)
  {
    var less := Prefers(lists);
    forall a, b | a in g && b in g ensures less(a, b) == Preferred(lists[a], lists[b]) {}
    forall a, b, c | a in g && b in g && c in g ensures less(a, b) ==> less(a, c) || less(c, b) {
      if Preferred(lists[a], lists[b]) { PreferredIsNegativelyTransitive(lists[a], lists[b], lists[c]); }
    }
  }

  /** Shared lists before stamped ones, whatever their dates and sort keys. */
  function SharedFirst(lists: map<string, Column>): (string, string) -> bool {
    (x, y) => x in lists && y in lists && Shared(lists[x]) && !Shared(lists[y])
  }

  lemma PreferenceFollowsSharing(lists: map<string, Column>, g: seq<string>)
    requires forall x | x in g :: x in lists
    ensures Follows(Prefers(lists), SharedFirst(lists), g)
  {
    var less, coarse := Prefers(lists), SharedFirst(lists);
    forall a, b | a in g && b in g
      ensures less(a, b) == Preferred(lists[a], lists[b]) && coarse(a, b) == (Shared(lists[a]) && !Shared(lists[b]))
    {}
  }

  /** The group of one title is a list of distinct active lists of the board. */
  ghost predicate IsGroup(lists: map<string, Column>, g: seq<string>, b: string, title: string) {
    && (forall x :: x in g <==> ActiveOn(lists, x, b) && Rendered(lists[x].title) == title)
    && Distinct(g)
  }

  /** A sorted group none of whose lists took part in a merge yet: its first list is to be kept. */
  ghost predicate Ready(lists: map<string, Column>, m: Merges, b: string, kept: string, rest: seq<string>) {
    && Distinct([kept] + rest)
    && (forall x | x in rest :: Mergeable(lists, x, kept, b) && x !in m && kept !in m)
    && (forall x, y | x in rest && y in m :: m[y] != x)
    && (forall x | x in rest && x in lists && kept in lists :: WellKept(lists, x, kept))
  }

  lemma NextReady(lists: map<string, Column>, lists': map<string, Column>, m: Merges, b: string, kept: string,
                  rest: seq<string>)
    requires Ready(lists, m, b, kept, rest) && rest != []
    requires lists' == lists - m.Keys
    ensures Mergeable(lists', rest[0], kept, b) && kept != rest[0]
    ensures rest[0] in lists && kept in lists && WellKept(lists, rest[0], kept)
    ensures rest[0] !in m && forall x | x in m :: m[x] != rest[0]
    ensures Ready(lists, m[rest[0] := kept], b, kept, rest[1..])
  {
    assert rest == [rest[0]] + rest[1..] && rest[0] in rest;
    assert forall x | x in rest[1..] :: x in rest;
    assert ([kept] + rest)[0] == kept && ([kept] + rest)[1] == rest[0];
    forall i | 0 < i < |rest| ensures rest[i] != rest[0] && rest[i] != kept {
      assert ([kept] + rest)[i + 1] == rest[i];
    }
    forall i, j | 0 <= i < j < |rest[1..]| ensures rest[1..][i] != rest[1..][j] {
      assert ([kept] + rest)[i + 2] == rest[1..][i] && ([kept] + rest)[j + 2] == rest[1..][j];
    }
  }

  lemma LeftLists(lists0: map<string, Column>, cards0: Cards, lists: map<string, Column>, cards: Cards, m: Merges,
                  b: string)
    requires Merging(lists0, cards0, lists, cards, m, b)
    ensures lists == lists0 - m.Keys
  {}

  /** Exactly the lists of `rest` were merged into `kept`, in addition to `m`. */
  ghost predicate Extends(m: Merges, m': Merges, rest: seq<string>) {
    (forall x :: x in m' <==> x in m || x in rest) && |m'| == |m| + |rest|
  }

  lemma ExtendedSize(m: Merges, m': Merges, rest: seq<string>)
    requires Extends(m, m', rest)
    ensures |m'| == |m| + |rest|
  {}

  lemma OneMoreExtends(m: Merges, m': Merges, rest: seq<string>, i: nat, kept: string)
    requires i < |rest| && Extends(m, m', rest[..i]) && rest[i] !in m'
    ensures Extends(m, m'[rest[i] := kept], rest[..i + 1]) && rest[i..] != [] && rest[i..][0] == rest[i]
            && rest[i..][1..] == rest[i + 1..]
  {
    assert rest[..i + 1] == rest[..i] + [rest[i]];
  }

  /** The loop over g[1:]. */
  method MergeRest(db: Database, ghost lists0: map<string, Column>, ghost cards0: Cards, ghost m: Merges,
                   ghost b: string, kept: string, rest: seq<string>)
    returns (fixed: nat, ghost m': Merges)
    requires Merging(lists0, cards0, db.lists, db.cards, m, b) && Ready(lists0, m, b, kept, rest)
    modifies db`lists, db`cards
    ensures Merging(lists0, cards0, db.lists, db.cards, m', b)
    ensures Extends(m, m', rest) && fixed == |rest|
  {
    fixed, m' := 0, m;
    assert Extends(m, m, rest[..0]) && rest[0..] == rest;
    hide Ready, WellKept, Mergeable, Merging, Extends;
    for i := 0 to |rest|
      invariant Merging(lists0, cards0, db.lists, db.cards, m', b)
      invariant Ready(lists0, m', b, kept, rest[i..])
      invariant Extends(m, m', rest[..i]) && fixed == i
    {
      LeftLists(lists0, cards0, db.lists, db.cards, m', b);
      assert rest[i..][0] == rest[i];
      NextReady(lists0, db.lists, m', b, kept, rest[i..]);
      OneMoreExtends(m, m', rest, i, kept);
      MergeInto(db, lists0, cards0, m', b, kept, rest[i]);
      m' := m'[rest[i] := kept];
      fixed := fixed + 1;
    }
    assert rest[..|rest|] == rest;
  }

  /** The board's merging after the groups of `titles`: merges only within those titles. */
  ghost predicate GroupsMerged(lists: map<string, Column>, cards0: Cards, now: map<string, Column>, cards: Cards,
                               m: Merges, b: string, titles: set<string>)
  {
    && Merging(lists, cards0, now, cards, m, b)
    && (forall x | x in m :: x in lists && Rendered(lists[x].title) in titles)
    && (forall x, y | ActiveOn(lists, x, b) && ActiveOn(lists, y, b) && SameTitle(lists, x, y)
       && Rendered(lists[x].title) in titles ::
          x in m || y in m || x == y)
  }

  lemma GroupReady(lists: map<string, Column>, cards0: Cards, now: map<string, Column>, cards: Cards, m: Merges,
                   titles: set<string>, b: string, title: string, g: seq<string>, q: seq<string>)
    requires IsGroup(lists, g, b, title) && multiset(q) == multiset(g) && Distinct(q) && |g| >= 2
    requires GroupsMerged(lists, cards0, now, cards, m, b, titles) && title !in titles
    requires Orders(Prefers(lists), g) ==> SortedBy(Prefers(lists), q)
    requires Follows(Prefers(lists), SharedFirst(lists), g) ==> SortedBy(SharedFirst(lists), q)
    ensures q != [] && Ready(lists, m, b, q[0], q[1..]) && Merging(lists, cards0, now, cards, m, b)
  {
    assert |q| == |multiset(q)| == |g|;
    SameElements(q, g);
    forall k | 0 < k < |q| ensures q[k] in lists && q[0] in lists && WellKept(lists, q[k], q[0]) {
      FirstIsWellKept(lists, b, title, g, q, k);
    }
    GroupIsReady(lists, cards0, now, cards, m, titles, b, title, g, q);
  }

  lemma GroupIsReady(lists: map<string, Column>, cards0: Cards, now: map<string, Column>, cards: Cards, m: Merges,
                     titles: set<string>, b: string, title: string, g: seq<string>, q: seq<string>)
    requires IsGroup(lists, g, b, title) && (forall x :: x in q <==> x in g) && Distinct(q) && |q| >= 2
    requires GroupsMerged(lists, cards0, now, cards, m, b, titles) && title !in titles
    requires forall k | 0 < k < |q| :: q[k] in lists && q[0] in lists && WellKept(lists, q[k], q[0])
    ensures Ready(lists, m, b, q[0], q[1..]) && Merging(lists, cards0, now, cards, m, b)
  {
    hide WellKept, BestKept;
    assert q == [q[0]] + q[1..] && q[0] in q;
    forall x | x in q[1..] ensures x in q && x in lists && WellKept(lists, x, q[0]) {
      var k :| 0 <= k < |q[1..]| && q[1..][k] == x;
      assert q[k + 1] == x;
    }
    assert forall x | x in q :: Rendered(lists[x].title) == title;
  }

  lemma FirstIsWellKept(lists: map<string, Column>, b: string, title: string, g: seq<string>, q: seq<string>, k: nat)
    requires IsGroup(lists, g, b, title) && (forall x :: x in q <==> x in g) && 0 < k < |q|
    requires Orders(Prefers(lists), g) ==> SortedBy(Prefers(lists), q)
    requires Follows(Prefers(lists), SharedFirst(lists), g) ==> SortedBy(SharedFirst(lists), q)
    ensures q[k] in lists && q[0] in lists && WellKept(lists, q[k], q[0])
  {
    assert q[k] in q && q[0] in q;
    PreferenceFollowsSharing(lists, g);
    assert !SharedFirst(lists)(q[k], q[0]);
    if NumbersBeside(lists, q[k]) {
      forall x | x in g ensures x in lists && lists[x].createdAt.Num? && lists[x].sort.Num? {
        assert SameTitle(lists, q[k], x);
      }
      NumbersOrder(lists, g);
      assert !Prefers(lists)(q[k], q[0]);
    }
  }

  lemma SmallGroup(lists: map<string, Column>, cards0: Cards, now: map<string, Column>, cards: Cards, m: Merges,
                   titles: set<string>, b: string, title: string, g: seq<string>)
    requires IsGroup(lists, g, b, title) && |g| < 2
    requires GroupsMerged(lists, cards0, now, cards, m, b, titles)
    ensures GroupsMerged(lists, cards0, now, cards, m, b, titles + {title})
  {
    forall x, y | ActiveOn(lists, x, b) && ActiveOn(lists, y, b) && SameTitle(lists, x, y)
      && Rendered(lists[x].title) == title
      ensures x == y
    {
      assert x in g && y in g;
    }
  }

  /** Of the active lists of one title at most one is left. */
  ghost predicate Covered(lists: map<string, Column>, m: Merges, b: string, title: string) {
    forall x, y | ActiveOn(lists, x, b) && ActiveOn(lists, y, b) && SameTitle(lists, x, y)
      && Rendered(lists[x].title) == title ::
      x in m || y in m || x == y
  }

  lemma HeadAndRest(g: seq<string>, q: seq<string>)
    requires multiset(q) == multiset(g) && q != []
    ensures forall x :: x in g <==> x == q[0] || x in q[1..]
  {
    SameElements(q, g);
    assert q == [q[0]] + q[1..];
  }

  lemma GroupCovered(lists: map<string, Column>, known: Merges, m: Merges, b: string, title: string, g: seq<string>,
                     kept: string, rest: seq<string>)
    requires IsGroup(lists, g, b, title) && Extends(known, m, rest)
    requires forall x :: x in g <==> x == kept || x in rest
    ensures Covered(lists, m, b, title)
    ensures forall x | x in m :: x in known || (x in lists && Rendered(lists[x].title) == title)
    ensures forall x | x in known :: x in m
  {
    hide Rendered;
    forall x, y | ActiveOn(lists, x, b) && ActiveOn(lists, y, b) && SameTitle(lists, x, y)
      && Rendered(lists[x].title) == title
      ensures x in m || y in m || x == y
    {
      assert x in g && y in g;
    }
  }

  lemma GroupFinished(lists: map<string, Column>, cards0: Cards, before: map<string, Column>, cardsBefore: Cards,
                      known: Merges,
                      now: map<string, Column>, cards: Cards, m: Merges, titles: set<string>, b: string, title: string)
    requires GroupsMerged(lists, cards0, before, cardsBefore, known, b, titles)
    requires Merging(lists, cards0, now, cards, m, b) && Covered(lists, m, b, title)
    requires forall x | x in m :: x in known || (x in lists && Rendered(lists[x].title) == title)
    requires forall x | x in known :: x in m
    ensures GroupsMerged(lists, cards0, now, cards, m, b, titles + {title})
  {
    hide Merging, ActiveOn, Rendered;
  }

  /** The body of the loop over titles: sort the group, keep its first list, merge the others into it. */
  method MergeGroup(db: Database, lists: map<string, Column>, ghost cards0: Cards, ghost m: Merges,
                    ghost titles: set<string>, ghost b: string, ghost title: string, g: seq<string>)
    returns (fixed: nat, ghost m': Merges)
    requires GroupsMerged(lists, cards0, db.lists, db.cards, m, b, titles)
    requires IsGroup(lists, g, b, title) && title !in titles
    modifies db`lists, db`cards
    ensures GroupsMerged(lists, cards0, db.lists, db.cards, m', b, titles + {title}) && |m'| == |m| + fixed
  {
    if |g| < 2 {
      SmallGroup(lists, cards0, db.lists, db.cards, m, titles, b, title, g);
      return 0, m;
    }
    ghost var before, cardsBefore := db.lists, db.cards;
    assert Distinct(g);
    hide *;
    var sorted := SliceStable(g, Prefers(lists), SharedFirst(lists));
    GroupReady(lists, cards0, db.lists, db.cards, m, titles, b, title, g, sorted);
    fixed, m' := MergeRest(db, lists, cards0, m, b, sorted[0], sorted[1..]);
    HeadAndRest(g, sorted);
    GroupCovered(lists, m, m', b, title, g, sorted[0], sorted[1..]);
    ExtendedSize(m, m', sorted[1..]);
    GroupFinished(lists, cards0, before, cardsBefore, m, db.lists, db.cards, m', titles, b, title);
  }

  // ---- one board ----

  /** The lists of q with the given title, in order. */
  function GroupOf(lists: map<string, Column>, q: seq<string>, title: string): seq<string>
    requires forall x | x in q :: x in lists
  {
    if q == [] then []
    else
      var last := q[|q| - 1];
      GroupOf(lists, q[..|q| - 1], title) + if Rendered(lists[last].title) == title then [last] else []
  }

  lemma {:induction false} GroupOfElements(lists: map<string, Column>, q: seq<string>, title: string)
    requires Distinct(q) && forall x | x in q :: x in lists
    ensures forall x :: x in GroupOf(lists, q, title) <==> x in q && Rendered(lists[x].title) == title
    ensures Distinct(GroupOf(lists, q, title))
    decreases |q|
  {
    if q != [] {
      assert q == q[..|q| - 1] + [q[|q| - 1]];
      GroupOfElements(lists, q[..|q| - 1], title);
    }
  }

  /** groups and order are those of the lists of q. */
  ghost predicate Grouped(lists: map<string, Column>, q: seq<string>, groups: map<string, seq<string>>,
                          order: seq<string>)
    requires forall x | x in q :: x in lists
  {
    && Distinct(order) && (forall k :: k in order <==> k in groups)
    && forall k :: if k in groups then groups[k] == GroupOf(lists, q, k) != [] else GroupOf(lists, q, k) == []
  }

  lemma GroupOfMore(lists: map<string, Column>, q: seq<string>, l: string, title: string)
    requires (forall x | x in q :: x in lists) && l in lists
    ensures GroupOf(lists, q + [l], title)
            == GroupOf(lists, q, title) + if Rendered(lists[l].title) == title then [l] else []
  {
    assert (q + [l])[..|q|] == q;
  }

  lemma GroupedFurther(lists: map<string, Column>, q: seq<string>, groups: map<string, seq<string>>, order: seq<string>,
                       l: string)
    requires (forall x | x in q :: x in lists) && l in lists && Grouped(lists, q, groups, order)
    ensures var k := Rendered(lists[l].title);
            var order' := if k in groups then order else order + [k];
            Grouped(lists, q + [l], groups[k := (if k in groups then groups[k] else []) + [l]], order')
  {
    var k := Rendered(lists[l].title);
    var groups' := groups[k := (if k in groups then groups[k] else []) + [l]];
    forall x
      ensures if x in groups' then groups'[x] == GroupOf(lists, q + [l], x) != []
              else GroupOf(lists, q + [l], x) == []
    {
      GroupOfMore(lists, q, l, x);
    }
    hide GroupOf, Rendered;
    OrderFurther(order, k);
  }

  lemma OrderFurther(order: seq<string>, k: string)
    requires Distinct(order)
    ensures k !in order ==> Distinct(order + [k])
    ensures forall x :: x in order + [k] <==> x in order || x == k
  {}

  lemma NothingGrouped(lists: map<string, Column>)
    ensures Grouped(lists, [], map[], [])
  {}

  /** groups and order: the active lists by title, titles in order of first encounter. */
  method GroupByTitle(lists: map<string, Column>, active: seq<string>)
    returns (groups: map<string, seq<string>>, order: seq<string>)
    requires forall x | x in active :: x in lists
    ensures Grouped(lists, active, groups, order)
  {
    groups, order := map[], [];
    NothingGrouped(lists);
    hide Grouped;
    for i := 0 to |active|
      invariant Grouped(lists, active[..i], groups, order)
    {
      var l := active[i];
      var k := Rendered(lists[l].title);
      assert active[..i + 1] == active[..i] + [l];
      GroupedFurther(lists, active[..i], groups, order, l);
      ghost var next := groups[k := (if k in groups then groups[k] else []) + [l]];
      if k !in groups {
        order := order + [k];
        groups := groups[k := []];
      }
      groups := groups[k := groups[k] + [l]];
      assert groups == next;
    }
    assert active[..|active|] == active;
  }

  /** The loop over titles for one board. */
  method MergeGroups(db: Database, lists: map<string, Column>, ghost cards0: Cards, ghost b: string,
                     groups: map<string, seq<string>>, order: seq<string>)
    returns (fixed: nat, ghost m: Merges)
    requires db.lists == lists && db.cards == cards0
    requires Distinct(order) && forall k | k in order :: k in groups && IsGroup(lists, groups[k], b, k)
    modifies db`lists, db`cards
    ensures GroupsMerged(lists, cards0, db.lists, db.cards, m, b, (set k | k in order)) && |m| == fixed
  {
    fixed, m := 0, map[];
    ghost var titles := {};
    NothingMerged(lists, cards0, b);
    hide IsGroup, GroupsMerged;
    for i := 0 to |order|
      invariant GroupsMerged(lists, cards0, db.lists, db.cards, m, b, titles) && |m| == fixed
      invariant forall k :: k in titles <==> k in order[..i]
    {
      NewAt(order, i);
      var n;
      n, m := MergeGroup(db, lists, cards0, m, titles, b, order[i], groups[order[i]]);
      fixed := fixed + n;
      titles := titles + {order[i]};
    }
    assert order[..|order|] == order;
    assert titles == set k | k in order;
  }

  lemma NothingMerged(lists: map<string, Column>, cards: Cards, b: string)
    ensures GroupsMerged(lists, cards, lists, cards, map[], b, {})
  {
    assert RelinkAll(cards, map[]) == cards;
  }

  /** Grouping by title and merging every group of one board's active lists. */
  method MergeActive(db: Database, b: string, active: seq<string>) returns (fixed: nat, ghost m: Merges)
    requires Distinct(active) && forall x :: x in active <==> ActiveOn(db.lists, x, b)
    modifies db`lists, db`cards
    ensures Merging(old(db.lists), old(db.cards), db.lists, db.cards, m, b) && |m| == fixed
    ensures FullyMerged(old(db.lists), m, {b})
  {
    ghost var cards0 := db.cards;
    var lists := db.lists;
    var groups, order := GroupByTitle(lists, active);
    forall k | k in order ensures k in groups && IsGroup(lists, groups[k], b, k) {
      GroupOfElements(lists, active, k);
    }
    forall x | ActiveOn(lists, x, b) ensures Rendered(lists[x].title) in order {
      GroupOfElements(lists, active, Rendered(lists[x].title));
      assert x in GroupOf(lists, active, Rendered(lists[x].title));
    }
    fixed, m := MergeGroups(db, lists, cards0, b, groups, order);
  }

  /** structuralDuplicate: a title seen twice among the active lists. */
  method HasDuplicate(lists: map<string, Column>, active: seq<string>) returns (found: bool)
    requires Distinct(active) && forall x | x in active :: x in lists
    ensures found <==> exists x, y :: x in active && y in active && x != y && SameTitle(lists, x, y)
  {
    var seen: set<string> := {};
    for i := 0 to |active|
      invariant forall k :: k in seen <==> exists x :: x in active[..i] && Rendered(lists[x].title) == k
      invariant forall j, k | 0 <= j < k < i :: !SameTitle(lists, active[j], active[k])
    {
      var k := Rendered(lists[active[i]].title);
      assert active[..i + 1] == active[..i] + [active[i]];
      if k in seen {
        ghost var x :| x in active[..i] && Rendered(lists[x].title) == k;
        assert x in active && active[i] in active && SameTitle(lists, x, active[i]);
        return true;
      }
      seen := seen + {k};
    }
    return false;
  }

  /** The symptom probes of the run, on the active lists only. */
  method HasSymptom(db: Database, b: string, active: seq<string>) returns (found: bool)
    requires Distinct(active) && forall x :: x in active <==> ActiveOn(db.lists, x, b)
    ensures found <==> Symptom(db.lists, db.cards, b)
  {
    found := HasDuplicate(db.lists, active);
    if found { return; }
    for i := 0 to |active|
      invariant forall j | 0 <= j < i :: !Mismatched(db.lists, db.cards, active[j])
    {
      assert active[i] in active;
      if Mismatched(db.lists, db.cards, active[i]) { return true; }
    }
    return false;
  }

  lemma MergingIsSound(lists0: map<string, Column>, cards0: Cards, lists: map<string, Column>, cards: Cards, m: Merges,
                       b: string)
    requires Merging(lists0, cards0, lists, cards, m, b)
    ensures SoundMerges(lists0, m, {b})
  {
    hide BestKept, RelinkAll, SameTitle;
  }

  lemma MergingKeepsBest(lists0: map<string, Column>, cards0: Cards, lists: map<string, Column>, cards: Cards,
                         m: Merges, b: string)
    requires Merging(lists0, cards0, lists, cards, m, b)
    ensures BestKept(lists0, m)
  {
    hide Mergeable, Preferred, RelinkAll;
  }

  lemma StampsCleared(lists0: map<string, Column>, lists: map<string, Column>, m: Merges, b: string,
                      after: map<string, Column>)
    requires lists == lists0 - m.Keys && after == map id | id in lists :: Unstamp(lists[id], {b})
    ensures after == KeptLists(lists0, m, {b})
    ensures Restamped(lists, after) == Restamped(lists0, after)
  {
    hide Unstamp;
  }

  lemma BoardMerged(pre: Store, lists: map<string, Column>, cards: Cards, m: Merges, b: string, post: Store)
    requires Merging(pre.lists, pre.cards, lists, cards, m, b) && FullyMerged(pre.lists, m, {b})
    requires post.lanes == pre.lanes && post.cards == cards
    requires post.lists == map id | id in lists :: Unstamp(lists[id], {b})
    requires post.boards == map g | g in pre.boards :: if g == b then Board(false, false) else pre.boards[g]
    ensures MergedSoFar(pre, post, m, {b})
    ensures Restamped(lists, post.lists) == Restamped(pre.lists, post.lists)
  {
    MergingIsSound(pre.lists, pre.cards, lists, cards, m, b);
    MergingKeepsBest(pre.lists, pre.cards, lists, cards, m, b);
    LeftLists(pre.lists, pre.cards, lists, cards, m, b);
    StampsCleared(pre.lists, lists, m, b, post.lists);
    assert post.boards == ClearMarkers(pre.boards, {b});
    hide FullyMerged, BestKept, RelinkAll, SoundMerges, KeptLists, Unstamp, Mergeable, Restamped;
  }

  /** Clears the stamps of a board's lists and its markers. */
  method ClearStamps(db: Database, b: string) returns (cleared: nat)
    modifies db`boards, db`lists
    ensures db.lists == map id | id in old(db.lists) :: Unstamp(old(db.lists)[id], {b})
    ensures db.boards == map g | g in old(db.boards) :: if g == b then Board(false, false) else old(db.boards)[g]
    ensures cleared == |Restamped(old(db.lists), db.lists)|
  {
    var lists, boards := db.lists, db.boards;
    hide Unstamp, Restamped;
    db.lists := map id | id in lists :: Unstamp(lists[id], {b});
    db.boards := map g | g in boards :: if g == b then Board(false, false) else boards[g];
    cleared := |Restamped(lists, db.lists)|;
  }

  /** Merges one board, clears the stamps of its lists and its markers. */
  method MergeBoard(db: Database, b: string, active: seq<string>) returns (fixed: nat, ghost m: Merges)
    requires Distinct(active) && forall x :: x in active <==> ActiveOn(db.lists, x, b)
    modifies db`boards, db`lists, db`cards
    ensures MergedSoFar(old(db.Contents()), db.Contents(), m, {b})
            && fixed == |m| + |Restamped(old(db.lists), db.lists)|
  {
    hide Restamped, Merging, FullyMerged, MergedSoFar, Unstamp, ActiveOn, Distinct;
    ghost var pre := db.Contents();
    var merged;
    merged, m := MergeActive(db, b, active);
    ghost var lists := db.lists;
    var cleared := ClearStamps(db, b);
    BoardMerged(pre, lists, db.cards, m, b, db.Contents());
    fixed := merged + cleared;
  }

  /** The loop body of the run for one board: skip it, or merge it. */
  method ProcessBoard(db: Database, b: string, marked: bool) returns (fixed: nat, ghost m: Merges)
    modifies db`boards, db`lists, db`cards
    ensures !marked && !Symptom(old(db.lists), old(db.cards), b) ==>
            db.Contents() == old(db.Contents()) && m == map[] && fixed == 0
    ensures marked || Symptom(old(db.lists), old(db.cards), b) ==>
              MergedSoFar(old(db.Contents()), db.Contents(), m, {b})
                && fixed == |m| + |Restamped(old(db.lists), db.lists)|
  {
    hide MergedSoFar, Symptom, Restamped;
    var active := Enumerate(set id | id in db.lists && ActiveOn(db.lists, id, b));
    if !marked {
      var found := HasSymptom(db, b, active);
      if !found { return 0, map[]; }
    }
    fixed, m := MergeBoard(db, b, active);
  }

  // ---- board after board ----

  lemma OtherBoardsAsBefore(pre: Store, mid: Store, m: Merges, done: set<string>, b: string)
    requires MergedSoFar(pre, mid, m, done) && b !in done
    ensures forall x :: ActiveOn(mid.lists, x, b) <==> ActiveOn(pre.lists, x, b)
    ensures forall x | x in pre.lists && pre.lists[x].boardId == Is(b) ::
              x in mid.lists && mid.lists[x] == pre.lists[x] && x !in m
    ensures forall x | x in mid.lists && mid.lists[x].boardId == Is(b) ::
              x in pre.lists && mid.lists[x] == pre.lists[x] && x !in m
  {}

  lemma MismatchIsLocal(pre: Store, mid: Store, m: Merges, done: set<string>, b: string, x: string)
    requires MergedSoFar(pre, mid, m, done) && b !in done && x in pre.lists && pre.lists[x].boardId == Is(b)
    requires x in mid.lists && mid.lists[x] == pre.lists[x] && x !in m
    ensures Mismatched(mid.lists, mid.cards, x) <==> Mismatched(pre.lists, pre.cards, x)
  {
    hide FullyMerged, BestKept, KeptLists, ClearMarkers;
    forall c | c in pre.cards
      ensures mid.cards[c].listId == Is(x) <==> pre.cards[c].listId == Is(x)
      ensures mid.cards[c].swimlaneId == pre.cards[c].swimlaneId
    {
      assert pre.cards[c].listId.Is? && pre.cards[c].listId.s in m ==> m[pre.cards[c].listId.s] != x;
    }
  }

  /** A board not yet processed shows a symptom exactly when it did at the start. */
  lemma SymptomIsLocal(pre: Store, mid: Store, m: Merges, done: set<string>, b: string)
    requires MergedSoFar(pre, mid, m, done) && b !in done
    ensures Symptom(mid.lists, mid.cards, b) <==> Symptom(pre.lists, pre.cards, b)
  {
    OtherBoardsAsBefore(pre, mid, m, done, b);
    forall x | ActiveOn(pre.lists, x, b)
      ensures Mismatched(mid.lists, mid.cards, x) <==> Mismatched(pre.lists, pre.cards, x)
    {
      MismatchIsLocal(pre, mid, m, done, b, x);
    }
    hide MergedSoFar, Mismatched, ActiveOn;
    DuplicateIsLocal(pre.lists, mid.lists, b);
  }

  lemma DuplicateIsLocal(lists: map<string, Column>, lists': map<string, Column>, b: string)
    requires forall x :: ActiveOn(lists', x, b) <==> ActiveOn(lists, x, b)
    requires forall x | ActiveOn(lists, x, b) :: x in lists' && lists'[x] == lists[x]
    ensures Duplicate(lists', b) <==> Duplicate(lists, b)
  {
    forall x, y | ActiveOn(lists, x, b) && ActiveOn(lists, y, b)
      ensures SameTitle(lists', x, y) <==> SameTitle(lists, x, y)
    {}
  }

  /** Merges of one further board, on the lists left by the boards before. */
  ghost predicate FurtherMerges(lists: map<string, Column>, mid: map<string, Column>, m: Merges, done: set<string>,
                                m': Merges, b: string)
  {
    && b !in done && mid == KeptLists(lists, m, done)
    && SoundMerges(lists, m, done) && SoundMerges(mid, m', {b})
  }

  lemma MergesAreApart(lists: map<string, Column>, mid: map<string, Column>, m: Merges, done: set<string>, m': Merges,
                       b: string)
    requires FurtherMerges(lists, mid, m, done, m', b)
    ensures forall x | x in m :: x !in m' && m[x] !in m' && x in lists && m[x] in lists && lists[x].boardId != Is(b)
    ensures forall x | x in m' :: x !in m && m'[x] !in m && Mergeable(lists, x, m'[x], b)
  {}

  lemma SoundCompose(lists: map<string, Column>, mid: map<string, Column>, m: Merges, done: set<string>, m': Merges,
                     b: string)
    requires FurtherMerges(lists, mid, m, done, m', b)
    ensures SoundMerges(lists, m + m', done + {b})
  {
    MergesAreApart(lists, mid, m, done, m', b);
  }

  lemma FullyCompose(lists: map<string, Column>, mid: map<string, Column>, m: Merges, done: set<string>, m': Merges,
                     b: string)
    requires FurtherMerges(lists, mid, m, done, m', b)
    requires FullyMerged(lists, m, done) && FullyMerged(mid, m', {b})
    ensures FullyMerged(lists, m + m', done + {b})
  {
    MergesAreApart(lists, mid, m, done, m', b);
    hide SoundMerges;
    forall x, y | ActiveOn(lists, x, b) && ActiveOn(lists, y, b) && SameTitle(lists, x, y)
      ensures x in m' || y in m' || x == y
    {
      assert x in mid && y in mid && mid[x] == lists[x] && mid[y] == lists[y];
      assert ActiveOn(mid, x, b) && ActiveOn(mid, y, b) && SameTitle(mid, x, y);
    }
  }

  lemma BestCompose(lists: map<string, Column>, mid: map<string, Column>, m: Merges, done: set<string>, m': Merges,
                    b: string)
    requires FurtherMerges(lists, mid, m, done, m', b)
    requires BestKept(lists, m) && BestKept(mid, m')
    ensures BestKept(lists, m + m')
  {
    MergesAreApart(lists, mid, m, done, m', b);
    forall x | x in m' ensures x in lists && m'[x] in lists && WellKept(lists, x, m'[x]) {
      BestOnOneBoard(lists, mid, m, done, m', b, x);
    }
    hide WellKept, SoundMerges;
  }

  lemma BestOnOneBoard(lists: map<string, Column>, mid: map<string, Column>, m: Merges, done: set<string>, m': Merges,
                       b: string, x: string)
    requires FurtherMerges(lists, mid, m, done, m', b) && BestKept(mid, m') && x in m'
    requires Mergeable(lists, x, m'[x], b) && x !in m && m'[x] !in m
    ensures WellKept(lists, x, m'[x])
  {
    hide SoundMerges, Preferred;
    assert mid[x] == lists[x] && mid[m'[x]] == lists[m'[x]];
    forall y | y in mid && mid[y].boardId == Is(b) ensures mid[y] == lists[y] {}
    assert NumbersBeside(lists, x) ==> NumbersBeside(mid, x);
  }

  lemma KeptCompose(lists: map<string, Column>, mid: map<string, Column>, m: Merges, done: set<string>, m': Merges,
                    b: string)
    requires FurtherMerges(lists, mid, m, done, m', b)
    ensures KeptLists(mid, m', {b}) == KeptLists(lists, m + m', done + {b})
  {
    MergesAreApart(lists, mid, m, done, m', b);
    hide SoundMerges, Mergeable;
    forall id | id in mid ensures Unstamp(mid[id], {b}) == Unstamp(lists[id], done + {b}) {}
  }

  lemma StampsCompose(lists: map<string, Column>, mid: map<string, Column>, m: Merges, done: set<string>, m': Merges,
                      b: string)
    requires FurtherMerges(lists, mid, m, done, m', b)
    ensures Restamped(lists, KeptLists(mid, m', {b})) == Restamped(lists, mid) + Restamped(mid, KeptLists(mid, m', {b}))
    ensures Restamped(lists, mid) !! Restamped(mid, KeptLists(mid, m', {b}))
  {
    MergesAreApart(lists, mid, m, done, m', b);
    assert forall x | x in m' :: mid[x] == lists[x];
    hide SoundMerges, Mergeable;
  }

  lemma MarkersCompose(boards: map<string, Board>, done: set<string>, b: string)
    ensures ClearMarkers(ClearMarkers(boards, done), {b}) == ClearMarkers(boards, done + {b})
  {}

  lemma RelinkCompose(cards: Cards, m: Merges, m': Merges)
    requires forall x | x in m :: x !in m' && m[x] !in m'
    ensures RelinkAll(RelinkAll(cards, m), m') == RelinkAll(cards, m + m')
  {
    forall id | id in cards ensures Relink(Relink(cards[id], m), m') == Relink(cards[id], m + m') {}
  }

  lemma SizesAdd(m: Merges, m': Merges)
    requires forall x | x in m :: x !in m'
    ensures |m + m'| == |m| + |m'|
  {
    assert (m + m').Keys == m.Keys + m'.Keys && m.Keys !! m'.Keys;
    assert |m + m'| == |(m + m').Keys| && |m.Keys| == |m| && |m'.Keys| == |m'|;
  }

  /** Processing one more board extends the merges; Fixed adds up. */
  lemma BoardsCompose(pre: Store, mid: Store, m: Merges, done: set<string>, post: Store, m': Merges, b: string)
    requires MergedSoFar(pre, mid, m, done) && b !in done && MergedSoFar(mid, post, m', {b})
    ensures MergedSoFar(pre, post, m + m', done + {b})
    ensures FixedBy(pre, post, m + m') == FixedBy(pre, mid, m) + |m'| + |Restamped(mid.lists, post.lists)|
  {
    assert FurtherMerges(pre.lists, mid.lists, m, done, m', b);
    hide SoundMerges, FullyMerged, BestKept, FurtherMerges, KeptLists, RelinkAll, Restamped, ClearMarkers;
    MergesAreApart(pre.lists, mid.lists, m, done, m', b);
    SoundCompose(pre.lists, mid.lists, m, done, m', b);
    FullyCompose(pre.lists, mid.lists, m, done, m', b);
    BestCompose(pre.lists, mid.lists, m, done, m', b);
    KeptCompose(pre.lists, mid.lists, m, done, m', b);
    StampsCompose(pre.lists, mid.lists, m, done, m', b);
    MarkersCompose(pre.boards, done, b);
    RelinkCompose(pre.cards, m, m');
    SizesAdd(m, m');
  }

  lemma NothingProcessed(s: Store)
    ensures MergedSoFar(s, s, map[], {}) && FixedBy(s, s, map[]) == 0
  {
    assert KeptLists(s.lists, map[], {}) == s.lists && RelinkAll(s.cards, map[]) == s.cards
           && ClearMarkers(s.boards, {}) == s.boards;
  }

  ghost function Due(s: Store, b: string): bool {
    b in MarkedBoards(s.boards) || Symptom(s.lists, s.cards, b)
  }

  /** One board of the run against the state reached so far. */
  method ProcessNext(db: Database, ghost pre: Store, ghost done: set<string>, ghost m: Merges, b: string, marked: bool)
    returns (fixed: nat, ghost m': Merges, ghost done': set<string>)
    requires MergedSoFar(pre, db.Contents(), m, done) && b !in done && marked == (b in MarkedBoards(pre.boards))
    modifies db`boards, db`lists, db`cards
    ensures MergedSoFar(pre, db.Contents(), m', done')
    ensures FixedBy(pre, db.Contents(), m') == FixedBy(pre, old(db.Contents()), m) + fixed
    ensures done' == if Due(pre, b) then done + {b} else done
  {
    ghost var mid := db.Contents();
    SymptomIsLocal(pre, mid, m, done, b);
    hide MergedSoFar, Symptom, FixedBy, Restamped, MarkedBoards;
    ghost var own;
    fixed, own := ProcessBoard(db, b, marked);
    if Due(pre, b) {
      BoardsCompose(pre, mid, m, done, db.Contents(), own, b);
      m', done' := m + own, done + {b};
    } else {
      m', done' := m, done;
    }
  }

  /** The loop over the marked boards and the boards with stamped lists. */
  method ProcessBoards(db: Database, boards: seq<string>, markers: set<string>)
    returns (fixed: nat, ghost m: Merges, ghost done: set<string>)
    requires Distinct(boards) && markers == MarkedBoards(db.boards)
    modifies db`boards, db`lists, db`cards
    ensures MergedSoFar(old(db.Contents()), db.Contents(), m, done)
    ensures forall b :: b in done <==> b in boards && Due(old(db.Contents()), b)
    ensures fixed == FixedBy(old(db.Contents()), db.Contents(), m)
  {
    ghost var pre := db.Contents();
    NothingProcessed(pre);
    hide MergedSoFar, FixedBy, Due, MarkedBoards, Distinct;
    fixed, m, done := 0, map[], {};
    for i := 0 to |boards|
      invariant MergedSoFar(pre, db.Contents(), m, done) && fixed == FixedBy(pre, db.Contents(), m)
      invariant forall b :: b in done <==> b in boards[..i] && Due(pre, b)
    {
      NewAt(boards, i);
      var n;
      n, m, done := ProcessNext(db, pre, done, m, boards[i], boards[i] in markers);
      fixed := fixed + n;
    }
    assert boards[..|boards|] == boards;
  }

  method RunMergePerSwimlaneLists(db: Database) returns (fixed: nat, ghost m: Merges)
    modifies db`boards, db`lists, db`cards
    ensures Merged(old(db.Contents()), db.Contents(), m)
    ensures fixed == FixedBy(old(db.Contents()), db.Contents(), m)
  {
    ghost var pre := db.Contents();
    var markers := MarkedBoards(db.boards);
    var marked := Enumerate(markers);
    var stamped := Enumerate(StampedBoards(db.lists) - markers);
    BothDistinct(marked, stamped);
    hide MergedSoFar, FixedBy, Due, MarkedBoards;
    ghost var done;
    fixed, m, done := ProcessBoards(db, marked + stamped, markers);
    AllBoards(pre, marked + stamped, done);
  }

  lemma BothDistinct(a: seq<string>, b: seq<string>)
    requires Distinct(a) && Distinct(b) && forall x | x in a :: x !in b
    ensures Distinct(a + b)
  {
    forall i, j | 0 <= i < j < |a + b| ensures (a + b)[i] != (a + b)[j] {
      if i < |a| <= j { assert a[i] in a && b[j - |a|] in b; }
    }
  }

  lemma AllBoards(s: Store, boards: seq<string>, done: set<string>)
    requires forall b :: b in boards <==> b in MarkedBoards(s.boards) || b in StampedBoards(s.lists)
    requires forall b :: b in done <==> b in boards && Due(s, b)
    ensures done == BoardsToProcess(s)
  {
    hide Symptom;
  }

  // ---- the check ----

  /** Some list of board b, archived or not, that is no template is mismatched. */
  predicate AnyMismatch(lists: map<string, Column>, cards: Cards, b: string) {
    exists id :: id in lists && lists[id].boardId == Is(b) && !lists[id].template && Mismatched(lists, cards, id)
  }

  /** The check's own probe: duplicates among active lists, or a mismatch in any list but templates. */
  ghost predicate NeedsMerge(s: Store) {
    || (exists b :: b in s.boards && Marked(s.boards[b]))
    || (exists b :: b in StampedBoards(s.lists) && (Duplicate(s.lists, b) || AnyMismatch(s.lists, s.cards, b)))
  }

  method CheckMergePerSwimlaneLists(db: Database) returns (needed: bool)
    ensures needed == NeedsMerge(db.Contents())
  {
    if exists b :: b in db.boards && Marked(db.boards[b]) { return true; }
    var bs := Enumerate(StampedBoards(db.lists));
    for i := 0 to |bs|
      invariant forall j | 0 <= j < i :: !Duplicate(db.lists, bs[j]) && !AnyMismatch(db.lists, db.cards, bs[j])
    {
      var b := bs[i];
      assert b in bs;
      var active := Enumerate(set id | id in db.lists && ActiveOn(db.lists, id, b));
      var found := HasDuplicate(db.lists, active);
      if found { return true; }
      if AnyMismatch(db.lists, db.cards, b) { return true; }
    }
    return false;
  }
}
