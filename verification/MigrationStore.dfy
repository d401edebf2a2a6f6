/**
 The four collections the structural migrations of internal/migrations/structure.go
 read and rewrite, keyed by _id, with the store operations they use. A collection is
 enumerated in an arbitrary order, so every result holds for any natural order.
 */
module MigrationStore {

  /** A field holding an id: absent, null or a string. */
  datatype Ref = Missing | Null | Is(s: string)

  /** structuralField: how such a field reads as a string. */
  function Rendered(r: Ref): string {
    match r
    case Missing => "undefined"
    case Null => "null"
    case Is(s) => s
  }

  predicate Usable(id: string) {
    id != "" && id != "null" && id != "undefined"
  }

  /** The filter {"$in": [nil, ""]}. */
  predicate Blank(r: Ref) {
    r in {Missing, Null, Is("")}
  }

  /** structuralNumber: NaN for text that is no number. */
  datatype Number = NaN | Num(n: real)

  function LessThan(a: Number, b: Number): bool {
    a.Num? && b.Num? && a.n < b.n
  }

  datatype Flag = Absent | No | Yes

  datatype Board = Board(fixMissingLists: bool, comprehensiveMigration: bool)
  datatype Lane = Lane(boardId: Ref, archived: bool, template: bool, sort: Number)
  datatype Column = Column(boardId: Ref, swimlaneId: Ref, title: Ref, archived: bool, template: bool,
                           sort: Number, createdAt: Number)
  datatype Card = Card(boardId: Ref, listId: Ref, swimlaneId: Ref, archived: Flag)

  type Cards = map<string, Card>

  datatype Store = Store(boards: map<string, Board>, lanes: map<string, Lane>,
                         lists: map<string, Column>, cards: Cards)

  /** How many cards differ between two states of the same collection. */
  function Changed(before: Cards, after: Cards): nat
    requires before.Keys == after.Keys
  {
    |ChangedIds(before, after)|
  }

  function ChangedIds(before: Cards, after: Cards): set<string>
    requires before.Keys == after.Keys
  {
    set id | id in before && after[id] != before[id]
  }

  /** Two consecutive updates that touch different cards add up. */
  lemma ChangedAdds(a: Cards, b: Cards, c: Cards)
    requires a.Keys == b.Keys == c.Keys
    requires forall id | id in a :: b[id] != a[id] ==> c[id] == b[id]
    ensures Changed(a, c) == Changed(a, b) + Changed(b, c)
  {
    assert ChangedIds(a, c) == ChangedIds(a, b) + ChangedIds(b, c);
  }

  lemma NothingChanged(a: Cards, b: Cards)
    requires a.Keys == b.Keys
    ensures Changed(a, b) == 0 <==> a == b
  {
    if ChangedIds(a, b) == {} {
      forall id | id in a ensures a[id] == b[id] {
        assert id !in ChangedIds(a, b);
      }
    }
  }

  /** The elements of a finite set in some order, each once. */
  method Enumerate(s: set<string>) returns (q: seq<string>)
    ensures forall x :: x in q <==> x in s
    ensures Distinct(q)
  {
    q := [];
    var rest := s;
    while rest != {}
      invariant rest <= s && (forall x :: x in q <==> x in s - rest)
      invariant Distinct(q)
      decreases rest
    {
      var x :| x in rest;
      q, rest := q + [x], rest - {x};
    }
  }

  /** A generated id: a usable string outside `avoid`. */
  method FreshId(avoid: set<string>) returns (id: string)
    ensures id !in avoid && Usable(id)
  {
    var rest, longest := avoid, 17;
    while rest != {}
      invariant longest >= 17
      invariant forall x | x in avoid && x !in rest :: |x| <= longest
      decreases rest
    {
      var x :| x in rest;
      rest := rest - {x};
      if |x| > longest { longest := |x|; }
    }
    id := seq(longest + 1, _ => '2');
  }

  /** `less` behaves as a strict weak order on the elements of q. */
  ghost predicate Orders<T(!new)>(less: (T, T) -> bool, q: seq<T>) {
    && (forall a, b | a in q && b in q :: less(a, b) ==> !less(b, a))
    && (forall a, b, c | a in q && b in q && c in q :: less(a, b) ==> less(a, c) || less(c, b))
  }

  ghost predicate SortedBy<T>(less: (T, T) -> bool, q: seq<T>) {
    forall i, j | 0 <= i < j < |q| :: !less(q[j], q[i])
  }

  ghost predicate Distinct<T>(q: seq<T>) {
    forall i, j | 0 <= i < j < |q| :: q[i] != q[j]
  }

  /** In a list without repetitions each element is new where it stands. */
  lemma NewAt(q: seq<string>, i: nat)
    requires Distinct(q) && i < |q|
    ensures q[i] !in q[..i] && q[i] in q && q[..i + 1] == q[..i] + [q[i]]
  {}

  /** Where `coarse` decides, `less` decides the same way. */
  ghost predicate Follows<T(!new)>(less: (T, T) -> bool, coarse: (T, T) -> bool, q: seq<T>) {
    Orders(coarse, q) && forall a, b | a in q && b in q && coarse(a, b) :: less(a, b) && !less(b, a)
  }

  /** The elements of q that come neither before nor after x, as they stand. */
  ghost function Ties<T>(less: (T, T) -> bool, q: seq<T>, x: T): seq<T> {
    if q == [] then []
    else
      var last := q[|q| - 1];
      Ties(less, q[..|q| - 1], x) + if !less(last, x) && !less(x, last) then [last] else []
  }

  lemma {:induction false} TiesOfBoth<T>(less: (T, T) -> bool, p: seq<T>, q: seq<T>, x: T)
    ensures Ties(less, p + q, x) == Ties(less, p, x) + Ties(less, q, x)
    decreases |q|
  {
    if q == [] {
      assert p + q == p;
    } else {
      TiesOfBoth(less, p, q[..|q| - 1], x);
      assert (p + q)[..|p + q| - 1] == p + q[..|q| - 1];
    }
  }

  /** sort.SliceStable: a permutation; sorted by any order that the comparison follows, also when the comparison
      itself is none; and if it is one, elements that tie stay as they stood. */
  method SliceStable<T(==, !new)>(q: seq<T>, less: (T, T) -> bool, ghost coarse: (T, T) -> bool) returns (r: seq<T>)
    ensures multiset(r) == multiset(q)
    ensures Orders(less, q) ==> SortedBy(less, r)
    ensures Follows(less, coarse, q) ==> SortedBy(coarse, r)
    ensures Orders(less, q) ==> forall x | x in q :: Ties(less, r, x) == Ties(less, q, x)
    ensures Distinct(q) ==> Distinct(r)
  {
    r := [];
    for i := 0 to |q|
      invariant multiset(r) == multiset(q[..i])
      invariant Distinct(q) ==> Distinct(r)
      invariant Orders(less, q) ==> SortedBy(less, r)
      invariant Follows(less, coarse, q) ==> SortedBy(coarse, r)
      invariant Orders(less, q) ==> forall x | x in q :: Ties(less, r, x) == Ties(less, q[..i], x)
    {
      SameElements(r, q[..i]);
      assert q[..i + 1] == q[..i] + [q[i]];
      OneMoreTie(less, q, i);
      r := Insert(r, q[i], less, coarse, q);
    }
    assert q[..|q|] == q;
  }

  lemma OneMoreTie<T>(less: (T, T) -> bool, q: seq<T>, i: nat)
    requires i < |q|
    ensures forall x :: Ties(less, q[..i + 1], x) == Ties(less, q[..i], x) + Ties(less, [q[i]], x)
  {
    assert q[..i + 1] == q[..i] + [q[i]];
    forall x ensures Ties(less, q[..i + 1], x) == Ties(less, q[..i], x) + Ties(less, [q[i]], x) {
      TiesOfBoth(less, q[..i], [q[i]], x);
    }
  }

  /** One insertion: x goes before the run of greater elements at the end of r. */
  method Insert<T(==, !new)>(r: seq<T>, x: T, less: (T, T) -> bool, ghost coarse: (T, T) -> bool, ghost q: seq<T>)
    returns (r': seq<T>)
    requires x in q && forall y | y in r :: y in q
    requires Orders(less, q) ==> SortedBy(less, r)
    requires Follows(less, coarse, q) ==> SortedBy(coarse, r)
    ensures multiset(r') == multiset(r) + multiset{x}
    ensures Orders(less, q) ==> SortedBy(less, r')
    ensures Follows(less, coarse, q) ==> SortedBy(coarse, r')
    ensures Orders(less, q) ==> forall y | y in q :: Ties(less, r', y) == Ties(less, r, y) + Ties(less, [x], y)
    ensures Distinct(r) && x !in r ==> Distinct(r')
  {
    var j := |r|;
    while j > 0 && less(x, r[j - 1])
      invariant 0 <= j <= |r|
      invariant forall k | j <= k < |r| :: less(x, r[k])
    {
      j := j - 1;
    }
    InsertKeepsSorted(q, r, x, j, less, less);
    InsertKeepsSorted(q, r, x, j, less, coarse);
    InsertKeepsTies(q, r, x, j, less);
    InsertKeepsDistinct(r, x, j);
    hide Distinct, Orders, Follows, SortedBy, Ties;
    assert r == r[..j] + r[j..];
    r' := r[..j] + [x] + r[j..];
  }

  lemma InsertKeepsDistinct<T>(r: seq<T>, x: T, j: nat)
    requires j <= |r|
    ensures Distinct(r) && x !in r ==> Distinct(r[..j] + [x] + r[j..])
  {}

  lemma InsertKeepsSorted<T(!new)>(q: seq<T>, r: seq<T>, x: T, j: nat, less: (T, T) -> bool, coarse: (T, T) -> bool)
    requires x in q && (forall y | y in r :: y in q) && j <= |r|
    requires Follows(less, coarse, q) ==> SortedBy(coarse, r)
    requires forall k | j <= k < |r| :: less(x, r[k])
    requires j > 0 ==> !less(x, r[j - 1])
    ensures Follows(less, coarse, q) ==> SortedBy(coarse, r[..j] + [x] + r[j..])
    ensures Orders(less, q) <==> Follows(less, less, q)
  {
    if Follows(less, coarse, q) {
      var t := r[..j] + [x] + r[j..];
      forall k | 0 <= k < |r| ensures r[k] in q {}
      forall a, b | 0 <= a < b < |t| ensures !coarse(t[b], t[a]) {
        assert t[a] == (if a < j then r[a] else if a == j then x else r[a - 1]);
        assert t[b] == (if b < j then r[b] else if b == j then x else r[b - 1]);
      }
    }
  }

  lemma InsertKeepsTies<T(!new)>(q: seq<T>, r: seq<T>, x: T, j: nat, less: (T, T) -> bool)
    requires x in q && (forall y | y in r :: y in q) && j <= |r|
    requires forall k | j <= k < |r| :: less(x, r[k])
    ensures Orders(less, q) ==>
              forall y | y in q :: Ties(less, r[..j] + [x] + r[j..], y) == Ties(less, r, y) + Ties(less, [x], y)
  {
    var greater := r[j..];
    assert r == r[..j] + greater;
    assert forall k | 0 <= k < |greater| :: greater[k] in r && less(x, greater[k]);
    hide Ties, Orders;
    if Orders(less, q) {
      forall y | y in q ensures Ties(less, r[..j] + [x] + greater, y) == Ties(less, r, y) + Ties(less, [x], y) {
        OneOfThemTies(q, less, greater, x, y);
        InsertedTies(less, r[..j], greater, x, y);
      }
    }
  }

  lemma OneOfThemTies<T(!new)>(q: seq<T>, less: (T, T) -> bool, greater: seq<T>, x: T, y: T)
    requires Orders(less, q) && x in q && y in q
    requires forall k | 0 <= k < |greater| :: greater[k] in q && less(x, greater[k])
    ensures Ties(less, [x], y) == [] || Ties(less, greater, y) == []
  {
    if less(x, y) || less(y, x) {
      NoTie(less, x, y);
    } else {
      NoTies(less, greater, y);
    }
  }

  lemma NoTie<T>(less: (T, T) -> bool, x: T, y: T)
    requires less(x, y) || less(y, x)
    ensures Ties(less, [x], y) == []
  {}

  lemma InsertedTies<T>(less: (T, T) -> bool, a: seq<T>, b: seq<T>, x: T, y: T)
    requires Ties(less, [x], y) == [] || Ties(less, b, y) == []
    ensures Ties(less, a + [x] + b, y) == Ties(less, a + b, y) + Ties(less, [x], y)
  {
    TiesOfBoth(less, a + [x], b, y);
    TiesOfBoth(less, a, [x], y);
    TiesOfBoth(less, a, b, y);
  }

  lemma {:induction false} NoTies<T>(less: (T, T) -> bool, q: seq<T>, y: T)
    requires forall k | 0 <= k < |q| :: less(y, q[k])
    ensures Ties(less, q, y) == []
  {
    if q != [] { NoTies(less, q[..|q| - 1], y); }
  }

  lemma SameElements<T>(a: seq<T>, b: seq<T>)
    requires multiset(a) == multiset(b)
    ensures forall x :: x in a <==> x in b
  {
    forall x ensures x in a <==> x in b {
      assert x in multiset(a) <==> x in multiset(b);
    }
  }

  // ---- first by sort key, per group ----

  /** The order of the find results by their `sort` field; ids outside the map compare as unordered. */
  function BySort(sorts: map<string, Number>): (string, string) -> bool {
    (a, b) => a in sorts && b in sorts && LessThan(sorts[a], sorts[b])
  }

  /** For each group the first id of q in it; ids outside `groups` belong to none. */
  function FirstPerGroup(groups: map<string, string>, q: seq<string>): map<string, string> {
    if q == [] then map[]
    else
      var first, id := FirstPerGroup(groups, q[..|q| - 1]), q[|q| - 1];
      if id in groups && groups[id] !in first then first[groups[id] := id] else first
  }

  lemma {:induction false} FirstPerGroupDomain(groups: map<string, string>, q: seq<string>)
    ensures forall g | g in FirstPerGroup(groups, q) ::
              FirstPerGroup(groups, q)[g] in q && FirstPerGroup(groups, q)[g] in groups
                && groups[FirstPerGroup(groups, q)[g]] == g
    ensures forall id | id in q && id in groups :: groups[id] in FirstPerGroup(groups, q)
    decreases |q|
  {
    if q != [] {
      FirstPerGroupDomain(groups, q[..|q| - 1]);
      assert q == q[..|q| - 1] + [q[|q| - 1]];
    }
  }

  lemma {:induction false} FirstPerGroupIsLeast(groups: map<string, string>, q: seq<string>,
                                                less: (string, string) -> bool)
    requires Orders(less, q) && SortedBy(less, q)
    ensures forall id | id in q && id in groups ::
              groups[id] in FirstPerGroup(groups, q) && !less(id, FirstPerGroup(groups, q)[groups[id]])
    decreases |q|
  {
    if q != [] {
      var most, last := q[..|q| - 1], q[|q| - 1];
      assert q == most + [last];
      FirstPerGroupIsLeast(groups, most, less);
      FirstPerGroupDomain(groups, most);
      forall id | id in q && id in groups
        ensures groups[id] in FirstPerGroup(groups, q) && !less(id, FirstPerGroup(groups, q)[groups[id]])
      {
        if groups[id] in FirstPerGroup(groups, most) && id == last {
          var k :| 0 <= k < |most| && most[k] == FirstPerGroup(groups, most)[groups[id]];
          assert q[k] == most[k];
        }
      }
    }
  }

  /** No id of a group has a smaller sort key than the group's first, when all keys are numbers. */
  ghost predicate LeastSort(sorts: map<string, Number>, groups: map<string, string>, first: map<string, string>) {
    (forall id | id in sorts :: sorts[id].Num?) ==>
      forall id | id in sorts && id in groups && groups[id] in first && first[groups[id]] in sorts ::
        !LessThan(sorts[id], sorts[first[groups[id]]])
  }

  lemma FirstHasLeastSort(sorts: map<string, Number>, groups: map<string, string>, q: seq<string>)
    requires forall id :: id in q <==> id in sorts
    requires Orders(BySort(sorts), q) ==> SortedBy(BySort(sorts), q)
    ensures LeastSort(sorts, groups, FirstPerGroup(groups, q))
  {
    if forall id | id in sorts :: sorts[id].Num? {
      var less := BySort(sorts);
      forall a, b | a in q && b in q ensures less(a, b) <==> sorts[a].n < sorts[b].n {
        assert a in sorts && b in sorts;
        assert less(a, b) == LessThan(sorts[a], sorts[b]);
      }
      assert Orders(less, q);
      FirstPerGroupIsLeast(groups, q, less);
      FirstPerGroupDomain(groups, q);
    }
  }

  /** The sort-then-take-first loops: sort stably, keep the first id of every group. */
  method FirstBySort(sorts: map<string, Number>, groups: map<string, string>) returns (first: map<string, string>)
    requires groups.Keys <= sorts.Keys
    ensures forall g :: g in first <==> exists id :: id in groups && groups[id] == g
    ensures forall g | g in first :: first[g] in groups && groups[first[g]] == g
    ensures LeastSort(sorts, groups, first)
  {
    var all := Enumerate(sorts.Keys);
    var sorted := SliceStable(all, BySort(sorts), BySort(sorts));
    SameElements(sorted, all);
    assert forall id :: id in sorted <==> id in sorts;
    first := map[];
    for i := 0 to |sorted|
      invariant first == FirstPerGroup(groups, sorted[..i])
    {
      assert sorted[..i + 1] == sorted[..i] + [sorted[i]];
      if sorted[i] !in groups { continue; }
      var g := groups[sorted[i]];
      if g !in first { first := first[g := sorted[i]]; }
    }
    assert sorted[..|sorted|] == sorted;
    FirstPerGroupDomain(groups, sorted);
    FirstHasLeastSort(sorts, groups, sorted);
  }

  class Database {
    var boards: map<string, Board>
    var lanes: map<string, Lane>
    var lists: map<string, Column>
    var cards: Cards

    function Contents(): Store
      reads this
    {
      Store(boards, lanes, lists, cards)
    }

    /** UpdateMany on cards: every match is rewritten; the count is of real modifications. */
    method UpdateCards(selects: Card -> bool, update: Card -> Card) returns (modified: nat)
      modifies this`cards
      ensures cards.Keys == old(cards.Keys)
      ensures forall id | id in cards ::
                cards[id] == if selects(old(cards)[id]) then update(old(cards)[id]) else old(cards)[id]
      ensures modified == Changed(old(cards), cards)
    {
      var before := cards;
      cards := map id | id in before :: if selects(before[id]) then update(before[id]) else before[id];
      modified := Changed(before, cards);
    }

    /** distinct on a field of the matching cards; documents without the field give no value. */
    method DistinctInCards(field: Card -> Ref, selects: Card -> bool) returns (values: seq<string>)
      ensures forall v :: v in values <==>
                exists id ::
                  id in cards && selects(cards[id]) && field(cards[id]) != Missing && Rendered(field(cards[id])) == v
      ensures Distinct(values)
    {
      var found :=
        set id | id in cards && selects(cards[id]) && field(cards[id]) != Missing :: Rendered(field(cards[id]));
      values := Enumerate(found);
    }
  }
}
