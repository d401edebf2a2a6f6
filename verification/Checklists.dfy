/**
 The embedded-checklist migration of internal/migrations/fields.go: items stored inside a
 checklist become documents of their own, and the embedded copies are removed last. A run that
 breaks off, possibly after part of an insert, is simply started again.
 */
module Checklists {
  import MS = MigrationStore
  import opened Optional

  /** An embedded item; the empty title is the falsy one. */
  datatype Entry = Entry(title: string, sort: MS.Number, finished: bool)

  datatype Checklist = Checklist(items: Option<seq<Entry>>, cardId: string)

  /** A checklist item document; a missing `sort` is None. */
  datatype Item = Item(title: string, sort: Option<int>, finished: bool, checklistId: string, cardId: string)

  // ---- fieldItemKey ----

  function Digit(n: nat): char
    requires n < 10
  {
    ['0', '1', '2', '3', '4', '5', '6', '7', '8', '9'][n]
  }

  function Digits(n: nat): string {
    if n < 10 then [Digit(n)] else Digits(n / 10) + [Digit(n % 10)]
  }

  function SortText(sort: Option<int>): string {
    match sort
    case None => "undefined"
    case Some(n) => if n < 0 then "-" + Digits(-n) else Digits(n)
  }

  function ItemKey(item: Item): string {
    item.title + "\0" + SortText(item.sort) + "\0" + if item.finished then "true" else "false"
  }

  lemma DigitsTellApart(m: nat, n: nat)
    requires m < 10 && n < 10 && Digit(m) == Digit(n)
    ensures m == n
  {}

  lemma {:induction false} DigitsAreDigits(n: nat)
    ensures Digits(n) != "" && forall c | c in Digits(n) :: '0' <= c <= '9'
  {
    if n >= 10 { DigitsAreDigits(n / 10); }
  }

  lemma {:induction false} NumeralsTellApart(m: nat, n: nat)
    requires Digits(m) == Digits(n)
    ensures m == n
    decreases m
  {
    var s := Digits(m);
    assert s[|s| - 1] == Digit(m % 10) == Digit(n % 10);
    DigitsTellApart(m % 10, n % 10);
    if m >= 10 { DigitsAreDigits(m / 10); }
    if n >= 10 { DigitsAreDigits(n / 10); }
    if m >= 10 && n >= 10 {
      assert Digits(m / 10) == s[..|s| - 1] == Digits(n / 10);
      NumeralsTellApart(m / 10, n / 10);
    }
  }

  lemma SortTextForm(sort: Option<int>)
    ensures '\0' !in SortText(sort) && SortText(sort) != ""
    ensures SortText(sort)[0] == 'u' <==> sort.None?
    ensures SortText(sort)[0] == '-' <==> sort.Some? && sort.value < 0
  {
    match sort
    case None => assert "undefined"[0] == 'u';
    case Some(n) =>
      var digits := Digits(if n < 0 then -n else n);
      DigitsAreDigits(if n < 0 then -n else n);
      assert digits[0] in digits;
  }

  lemma SortsTellApart(a: Option<int>, b: Option<int>)
    requires SortText(a) == SortText(b)
    ensures a == b
  {
    SortTextForm(a);
    SortTextForm(b);
    if a.Some? {
      if a.value < 0 {
        assert Digits(-a.value) == SortText(a)[1..] == Digits(-b.value);
        NumeralsTellApart(-a.value, -b.value);
      } else {
        NumeralsTellApart(a.value, b.value);
      }
    }
  }

  /** The part after the last NUL character is determined by the whole. */
  lemma LastNulSplits(a: string, x: string, b: string, y: string)
    requires a + "\0" + x == b + "\0" + y && '\0' !in x && '\0' !in y
    ensures a == b && x == y
  {
    var s := a + "\0" + x;
    assert s[|a|] == '\0' && (forall i | |a| < i < |s| :: s[i] == x[i - |a| - 1]);
    assert s[|b|] == '\0' && (forall i | |b| < i < |s| :: s[i] == y[i - |b| - 1]);
    assert a == s[..|a|] && b == s[..|b|] && x == s[|a| + 1..] && y == s[|b| + 1..];
  }

  /** Two items have the same key exactly when title, position and finished flag agree. */
  lemma KeysTellApart(a: Item, b: Item)
    ensures ItemKey(a) == ItemKey(b) <==> a.title == b.title && a.sort == b.sort && a.finished == b.finished
  {
    if ItemKey(a) == ItemKey(b) {
      var flagA, flagB := if a.finished then "true" else "false", if b.finished then "true" else "false";
      LastNulSplits(a.title + "\0" + SortText(a.sort), flagA, b.title + "\0" + SortText(b.sort), flagB);
      assert "true"[0] == 't' && "false"[0] == 'f';
      SortTextForm(a.sort);
      SortTextForm(b.sort);
      LastNulSplits(a.title, SortText(a.sort), b.title, SortText(b.sort));
      SortsTellApart(a.sort, b.sort);
    }
  }

  // ---- the documents of a checklist ----

  /** Stable insertion: behind everything that is not greater. */
  function Insert(r: seq<Entry>, x: Entry): seq<Entry> {
    if r != [] && MS.LessThan(x.sort, r[|r| - 1].sort) then Insert(r[..|r| - 1], x) + [r[|r| - 1]] else r + [x]
  }

  function Sorted(entries: seq<Entry>): seq<Entry> {
    if entries == [] then [] else Insert(Sorted(entries[..|entries| - 1]), entries[|entries| - 1])
  }

  predicate Ascending(r: seq<Entry>) {
    forall i, j | 0 <= i < j < |r| :: !MS.LessThan(r[j].sort, r[i].sort)
  }

  function WithSort(r: seq<Entry>, sort: MS.Number): seq<Entry> {
    if r == [] then []
    else WithSort(r[..|r| - 1], sort) + if r[|r| - 1].sort == sort then [r[|r| - 1]] else []
  }

  lemma SplitLast<T>(r: seq<T>)
    requires r != []
    ensures r == r[..|r| - 1] + [r[|r| - 1]]
  {}

  lemma {:induction false} InsertAdds(r: seq<Entry>, x: Entry)
    ensures multiset(Insert(r, x)) == multiset(r) + multiset{x}
  {
    if r != [] {
      SplitLast(r);
      InsertAdds(r[..|r| - 1], x);
    }
  }

  lemma {:induction false} InsertAscends(r: seq<Entry>, x: Entry)
    requires Ascending(r) && x.sort.Num? && forall e | e in r :: e.sort.Num?
    ensures Ascending(Insert(r, x)) && multiset(Insert(r, x)) == multiset(r) + multiset{x}
  {
    InsertAdds(r, x);
    if r != [] && MS.LessThan(x.sort, r[|r| - 1].sort) {
      var most, last := r[..|r| - 1], r[|r| - 1];
      InsertAscends(most, x);
      var s := Insert(most, x);
      forall e | e in s ensures !MS.LessThan(last.sort, e.sort) {
        assert e in multiset(s);
        if e != x { assert e in most; }
      }
    }
  }

  lemma {:induction false} InsertIsStable(r: seq<Entry>, x: Entry, sort: MS.Number)
    ensures WithSort(Insert(r, x), sort) == WithSort(r, sort) + if x.sort == sort then [x] else []
  {
    hide WithSort, MS.LessThan;
    if r != [] && MS.LessThan(x.sort, r[|r| - 1].sort) {
      var most, last := r[..|r| - 1], r[|r| - 1];
      SplitLast(r);
      InsertIsStable(most, x, sort);
      WithSortOfMore(most, last, sort);
      WithSortOfMore(Insert(most, x), last, sort);
      LessIsNotSame(x.sort, last.sort);
    } else {
      WithSortOfMore(r, x, sort);
    }
  }

  lemma LessIsNotSame(a: MS.Number, b: MS.Number)
    requires MS.LessThan(a, b)
    ensures a != b
  {}

  lemma WithSortOfMore(r: seq<Entry>, x: Entry, sort: MS.Number)
    ensures WithSort(r + [x], sort) == WithSort(r, sort) + if x.sort == sort then [x] else []
  {
    assert (r + [x])[..|r|] == r;
  }

  /** Without unordered sort values the entries come out ascending, equal ones in their stored order. */
  lemma {:induction false} SortedIsStable(entries: seq<Entry>)
    requires forall e | e in entries :: e.sort.Num?
    ensures Ascending(Sorted(entries)) && multiset(Sorted(entries)) == multiset(entries)
    ensures forall sort :: WithSort(Sorted(entries), sort) == WithSort(entries, sort)
  {
    if entries != [] {
      var most, last := entries[..|entries| - 1], entries[|entries| - 1];
      SortedIsStable(most);
      MS.SameElements(Sorted(most), most);
      assert entries == most + [last];
      InsertAscends(Sorted(most), last);
      forall sort ensures WithSort(Sorted(entries), sort) == WithSort(entries, sort) {
        InsertIsStable(Sorted(most), last, sort);
      }
    }
  }

  /** The document for the entry at position i of the sorted checklist. */
  function DocAt(id: string, c: Checklist, entries: seq<Entry>, i: nat): Item
    requires i < |entries|
  {
    Item(if entries[i].title == "" then "Checklist" else entries[i].title, Some(i), entries[i].finished, id, c.cardId)
  }

  /** The filter {"items.0": {"$exists": true}}. */
  predicate Embedded(c: Checklist) {
    c.items.Some? && c.items.value != []
  }

  function Docs(id: string, c: Checklist): (r: seq<Item>)
    requires Embedded(c)
    ensures forall i | 0 <= i < |r| :: r[i].sort == Some(i) && r[i].checklistId == id
  {
    var entries := Sorted(c.items.value);
    seq(|entries|, i requires 0 <= i < |entries| => DocAt(id, c, entries, i))
  }

  function Keys(items: seq<Item>): set<string> {
    set item | item in items :: ItemKey(item)
  }

  lemma NoKeys()
    ensures Keys([]) == {}
  {}

  lemma OneMoreKey(items: seq<Item>, i: nat)
    requires i < |items|
    ensures Keys(items[..i + 1]) == Keys(items[..i]) + {ItemKey(items[i])}
  {
    hide ItemKey;
    assert items[..i + 1] == items[..i] + [items[i]];
  }

  /** The first n documents of a list whose keys are not among those seen. */
  function Unseen(docs: seq<Item>, seen: set<string>): seq<Item> {
    if docs == [] then []
    else
      var doc := docs[|docs| - 1];
      Unseen(docs[..|docs| - 1], seen) + if ItemKey(doc) in seen then [] else [doc]
  }

  /** The documents of a checklist that still have to be inserted. */
  function Missing(id: string, c: Checklist, own: seq<Item>): seq<Item>
    requires Embedded(c)
  {
    Unseen(Docs(id, c), Keys(own))
  }

  /** The items of one checklist. */
  function Of(items: seq<Item>, id: string): seq<Item> {
    if items == [] then []
    else Of(items[..|items| - 1], id) + if items[|items| - 1].checklistId == id then [items[|items| - 1]] else []
  }

  lemma {:induction false} OfBoth(xs: seq<Item>, ys: seq<Item>, id: string)
    ensures Of(xs + ys, id) == Of(xs, id) + Of(ys, id)
    decreases |ys|
  {
    if ys == [] {
      assert xs + ys == xs;
    } else {
      OfBoth(xs, ys[..|ys| - 1], id);
      assert (xs + ys)[..|xs + ys| - 1] == xs + ys[..|ys| - 1];
    }
  }

  lemma {:induction false} OfOne(xs: seq<Item>, owner: string, id: string)
    requires forall x | x in xs :: x.checklistId == owner
    ensures Of(xs, id) == if id == owner then xs else []
  {
    if xs != [] {
      OfOne(xs[..|xs| - 1], owner, id);
      assert xs == xs[..|xs| - 1] + [xs[|xs| - 1]];
    }
  }

  // ---- the migration ----

  datatype Store = Store(checklists: map<string, Checklist>, items: seq<Item>)

  /** The elements at the chosen positions. */
  function Chosen(docs: seq<Item>, kept: set<nat>): seq<Item> {
    if docs == [] then []
    else Chosen(docs[..|docs| - 1], kept) + if |docs| - 1 in kept then [docs[|docs| - 1]] else []
  }

  lemma {:induction false} ChosenAreSome(docs: seq<Item>, kept: set<nat>)
    ensures multiset(Chosen(docs, kept)) <= multiset(docs)
    ensures forall d | d in Chosen(docs, kept) :: d in docs
  {
    if docs != [] {
      ChosenAreSome(docs[..|docs| - 1], kept);
      assert docs == docs[..|docs| - 1] + [docs[|docs| - 1]];
    }
  }

  /** What one attempt may do to one checklist with embedded items: insert some of the missing documents, and
      remove the embedded copies only after inserting them all. */
  ghost predicate Tried(id: string, c: Checklist, c': Checklist, own: seq<Item>, own': seq<Item>)
    requires Embedded(c)
  {
    && (c' == c || c' == c.(items := None))
    && (exists some: multiset<Item> ::
          && some <= multiset(Missing(id, c, own)) && multiset(own') == multiset(own) + some
          && (c' != c ==> some == multiset(Missing(id, c, own))))
  }

  ghost predicate TriedOn(s: Store, t: Store, id: string)
    requires id in s.checklists && id in t.checklists
  {
    var c, own, own' := s.checklists[id], Of(s.items, id), Of(t.items, id);
    if Embedded(c) then Tried(id, c, t.checklists[id], own, own')
    else t.checklists[id] == c && own' == own
  }

  /** What one run, complete or broken off, may do to the store. */
  ghost predicate Attempted(s: Store, t: Store) {
    && t.checklists.Keys == s.checklists.Keys
    && (forall id | id in s.checklists :: TriedOn(s, t, id))
    && (forall id | id !in s.checklists :: Of(t.items, id) == Of(s.items, id))
  }

  /** The two collections; the n-th call fails if a fault is set for n, an insert after inserting some. */
  class Collections {
    var checklists: map<string, Checklist>
    var items: seq<Item>
    var calls: nat
    const findFaults: nat -> bool
    const insertFaults: nat -> Option<set<nat>>
    const unsetFaults: nat -> bool

    constructor (checklists: map<string, Checklist>, items: seq<Item>,
                 findFaults: nat -> bool, insertFaults: nat -> Option<set<nat>>, unsetFaults: nat -> bool)
      ensures Contents() == Store(checklists, items)
    {
      this.checklists, this.items, calls := checklists, items, 0;
      this.findFaults, this.insertFaults, this.unsetFaults := findFaults, insertFaults, unsetFaults;
    }

    function Contents(): Store
      reads this
    {
      Store(checklists, items)
    }

    method FindOwn(id: string) returns (found: Option<seq<Item>>)
      modifies this`calls
      ensures found == None || found == Some(Of(items, id))
    {
      calls := calls + 1;
      found := if findFaults(calls) then None else Some(Of(items, id));
    }

    /** An unordered InsertMany: on failure any part may have been inserted. */
    method InsertMany(docs: seq<Item>) returns (ok: bool)
      modifies this`items, this`calls
      ensures ok ==> items == old(items) + docs
      ensures !ok ==> exists kept :: items == old(items) + Chosen(docs, kept)
    {
      calls := calls + 1;
      var fault := insertFaults(calls);
      ok := fault.None?;
      items := items + if ok then docs else Chosen(docs, fault.value);
    }

    method UnsetItems(id: string) returns (ok: bool)
      requires id in checklists
      modifies this`checklists, this`calls
      ensures checklists
              == old(checklists)[id := if ok then old(checklists)[id].(items := None) else old(checklists)[id]]
    {
      calls := calls + 1;
      ok := !unsetFaults(calls);
      if ok { checklists := checklists[id := checklists[id].(items := None)]; }
    }

    /** The body of the cursor loop. */
    method MigrateOne(id: string) returns (ok: bool, fixed: nat)
      requires id in checklists && Embedded(checklists[id])
      modifies this`checklists, this`items, this`calls
      ensures checklists.Keys == old(checklists).Keys
      ensures forall other | other in checklists && other != id :: checklists[other] == old(checklists)[other]
      ensures forall other | other != id :: Of(items, other) == old(Of(items, other))
      ensures Tried(id, old(checklists)[id], checklists[id], old(Of(items, id)), Of(items, id))
      ensures ok ==> !Embedded(checklists[id]) && |items| == old(|items|) + fixed
    {
      hide Tried, Of, Unseen, Keys, Sorted, Docs, Chosen;
      ghost var own, before := Of(items, id), items;
      var c := checklists[id];
      ok, fixed := false, 0;
      var entries := Sorted(c.items.value);
      var found := FindOwn(id);
      if found == None {
        NothingTried(id, c, own);
        return;
      }
      var seen := SeenKeys(found.value);
      var docs := NewDocs(id, c, entries, seen);
      assert docs == Missing(id, c, own);
      hide Missing;
      if |docs| > 0 {
        ok := InsertMany(docs);
        if !ok {
          ghost var kept :| items == before + Chosen(docs, kept);
          PartlyTried(id, c, before, docs, kept);
          return;
        }
        fixed := |docs|;
      }
      assert items == before + docs;
      WhollyTried(id, c, before, docs);
      ok := UnsetItems(id);
    }

    method CheckChecklistItemsEmbedded() returns (needed: bool)
      ensures needed <==> exists id :: id in checklists && checklists[id].items.Some?
                                       && |checklists[id].items.value| > 0
    {
      var found := set id | id in checklists && Embedded(checklists[id]);
      needed := found != {};
      assert needed ==> exists id :: id in found;
      assert forall id | id in checklists && Embedded(checklists[id]) :: id in found;
    }

    /** The cursor is over the checklists that had embedded items when it was opened, in any order. */
    method RunChecklistItemsEmbedded() returns (ok: bool, fixed: nat)
      modifies this`checklists, this`items, this`calls
      ensures Attempted(old(Contents()), Contents())
      ensures ok ==> |items| == old(|items|) + fixed
                     && forall id | id in checklists && checklists[id].items.Some? :: |checklists[id].items.value| == 0
    {
      ghost var s := Contents();
      var found := set id | id in checklists && Embedded(checklists[id]);
      var cursor := MS.Enumerate(found);
      ok, fixed := true, 0;
      NotYetTried(s);
      assert cursor[0..] == cursor;
      for i := 0 to |cursor|
        invariant ok && |items| == |s.items| + fixed
        invariant Midway(s, Contents(), cursor[i..])
      {
        NextUp(s, Contents(), cursor, i);
        ghost var before := Contents();
        hide *;
        var n;
        ok, n := MigrateOne(cursor[i]);
        OneMore(s, before, Contents(), cursor, i, ok);
        fixed := fixed + n;
        if !ok { return; }
      }
      AllTried(s, Contents());
    }

    /** The keys of the items already there. */
    method SeenKeys(existing: seq<Item>) returns (seen: set<string>)
      ensures seen == Keys(existing)
    {
      hide Keys, ItemKey;
      seen := {};
      NoKeys();
      for i := 0 to |existing|
        invariant seen == Keys(existing[..i])
      {
        seen := seen + {ItemKey(existing[i])};
        OneMoreKey(existing, i);
      }
      assert existing[..|existing|] == existing;
    }

    method NewDocs(id: string, c: Checklist, entries: seq<Entry>, seen: set<string>) returns (docs: seq<Item>)
      requires Embedded(c) && entries == Sorted(c.items.value)
      ensures docs == Unseen(Docs(id, c), seen)
    {
      docs := [];
      for i := 0 to |entries|
        invariant docs == Unseen(Docs(id, c)[..i], seen)
      {
        var doc := DocAt(id, c, entries, i);
        assert Docs(id, c)[..i + 1][..i] == Docs(id, c)[..i];
        if ItemKey(doc) in seen { continue; }
        docs := docs + [doc];
      }
      assert Docs(id, c)[..|entries|] == Docs(id, c);
    }
  }

  lemma {:induction false} UnseenAreSome(docs: seq<Item>, seen: set<string>)
    ensures forall d :: d in Unseen(docs, seen) <==> d in docs && ItemKey(d) !in seen
  {
    if docs != [] {
      UnseenAreSome(docs[..|docs| - 1], seen);
      assert docs == docs[..|docs| - 1] + [docs[|docs| - 1]];
    }
  }

  lemma MissingAreOwn(id: string, c: Checklist, own: seq<Item>)
    requires Embedded(c)
    ensures forall d | d in Missing(id, c, own) :: d.checklistId == id
  {
    UnseenAreSome(Docs(id, c), Keys(own));
  }

  lemma NothingTried(id: string, c: Checklist, own: seq<Item>)
    requires Embedded(c)
    ensures Tried(id, c, c, own, own)
  {
    var none := multiset{};
    assert none <= multiset(Missing(id, c, own)) && multiset(own) == multiset(own) + none;
  }

  lemma PartlyTried(id: string, c: Checklist, items: seq<Item>, docs: seq<Item>, kept: set<nat>)
    requires Embedded(c) && docs == Missing(id, c, Of(items, id))
    ensures Tried(id, c, c, Of(items, id), Of(items + Chosen(docs, kept), id))
    ensures forall other | other != id :: Of(items + Chosen(docs, kept), other) == Of(items, other)
  {
    var some := Chosen(docs, kept);
    ChosenAreSome(docs, kept);
    MissingAreOwn(id, c, Of(items, id));
    forall other ensures Of(items + some, other) == Of(items, other) + if other == id then some else [] {
      OfBoth(items, some, other);
      OfOne(some, id, other);
    }
    hide Missing, Of;
    assert multiset(Of(items + some, id)) == multiset(Of(items, id)) + multiset(some);
  }

  lemma WhollyTried(id: string, c: Checklist, items: seq<Item>, docs: seq<Item>)
    requires Embedded(c) && docs == Missing(id, c, Of(items, id))
    ensures Tried(id, c, c, Of(items, id), Of(items + docs, id))
            && Tried(id, c, c.(items := None), Of(items, id), Of(items + docs, id))
    ensures forall other | other != id :: Of(items + docs, other) == Of(items, other)
  {
    MissingAreOwn(id, c, Of(items, id));
    forall other ensures Of(items + docs, other) == Of(items, other) + if other == id then docs else [] {
      OfBoth(items, docs, other);
      OfOne(docs, id, other);
    }
    hide Missing, Of;
    assert multiset(Of(items + docs, id)) == multiset(Of(items, id)) + multiset(docs);
  }

  /** A run that still has to come to the checklists `todo`. */
  ghost predicate Midway(s: Store, t: Store, todo: seq<string>) {
    && Attempted(s, t) && MS.Distinct(todo)
    && (forall id | id in todo :: id in s.checklists && Embedded(s.checklists[id]))
    && (forall id | id in todo :: t.checklists[id] == s.checklists[id] && Of(t.items, id) == Of(s.items, id))
    && forall id | id in t.checklists && Embedded(t.checklists[id]) :: id in todo
  }

  lemma NotYetTried(s: Store)
    ensures Attempted(s, s)
  {
    forall id | id in s.checklists ensures TriedOn(s, s, id) {
      if Embedded(s.checklists[id]) { NothingTried(id, s.checklists[id], Of(s.items, id)); }
    }
  }

  lemma NextUp(s: Store, t: Store, cursor: seq<string>, i: nat)
    requires i < |cursor| && Midway(s, t, cursor[i..])
    ensures cursor[i] in t.checklists && Embedded(t.checklists[cursor[i]])
  {
    assert cursor[i] == cursor[i..][0];
  }

  lemma TailOf(cursor: seq<string>, i: nat)
    requires i < |cursor| && MS.Distinct(cursor[i..])
    ensures MS.Distinct(cursor[i + 1..]) && cursor[i] in cursor[i..] && cursor[i] !in cursor[i + 1..]
    ensures forall x :: x in cursor[i..] <==> x == cursor[i] || x in cursor[i + 1..]
  {
    var q := cursor[i..];
    assert q == [cursor[i]] + cursor[i + 1..] && q[1..] == cursor[i + 1..];
  }

  /** What migrating one checklist does to the store. */
  ghost predicate Migrated(t: Store, u: Store, id: string, ok: bool) {
    && id in t.checklists && u.checklists.Keys == t.checklists.Keys
    && (forall other | other in t.checklists && other != id :: u.checklists[other] == t.checklists[other])
    && (forall other | other != id :: Of(u.items, other) == Of(t.items, other))
    && Embedded(t.checklists[id])
    && Tried(id, t.checklists[id], u.checklists[id], Of(t.items, id), Of(u.items, id))
    && (ok ==> !Embedded(u.checklists[id]))
  }

  lemma OneMore(s: Store, t: Store, u: Store, cursor: seq<string>, i: nat, ok: bool)
    requires i < |cursor| && Midway(s, t, cursor[i..]) && Migrated(t, u, cursor[i], ok)
    ensures Attempted(s, u) && (ok ==> Midway(s, u, cursor[i + 1..]))
  {
    hide Tried, Of, Embedded, MS.Distinct, TriedOn;
    TailOf(cursor, i);
    StillAttempted(s, t, u, cursor[i..], cursor[i], ok);
    if ok { StillMidway(s, t, u, cursor[i..], cursor[i + 1..], cursor[i]); }
  }

  lemma StillMidway(s: Store, t: Store, u: Store, todo: seq<string>, rest: seq<string>, id: string)
    requires Midway(s, t, todo) && Migrated(t, u, id, true) && Attempted(s, u)
    requires MS.Distinct(rest) && id !in rest && forall x :: x in todo <==> x == id || x in rest
    ensures Midway(s, u, rest)
  {
    hide TriedOn, Tried, Of, Embedded;
    forall x | x in rest ensures x in todo && x != id {}
    forall x | x in u.checklists && Embedded(u.checklists[x]) ensures x in rest {
      assert x in t.checklists;
      if x != id { assert u.checklists[x] == t.checklists[x]; }
    }
    assert u.checklists.Keys == s.checklists.Keys;
  }

  lemma StillAttempted(s: Store, t: Store, u: Store, todo: seq<string>, id: string, ok: bool)
    requires Midway(s, t, todo) && id in todo && Migrated(t, u, id, ok)
    ensures Attempted(s, u)
  {
    hide Tried, Of, Embedded;
    forall other | other in s.checklists ensures TriedOn(s, u, other) {
      assert TriedOn(s, t, other);
    }
  }

  lemma AllTried(s: Store, t: Store)
    requires Midway(s, t, [])
    ensures Attempted(s, t) && forall id | id in t.checklists :: !Embedded(t.checklists[id])
  {}

  // ---- exactly once, however often it breaks off ----

  predicate DistinctItems(docs: seq<Item>) {
    forall i, j | 0 <= i < j < |docs| :: docs[i] != docs[j]
  }

  predicate SortsDiffer(docs: seq<Item>) {
    forall i, j | 0 <= i < |docs| && 0 <= j < |docs| && docs[i].sort == docs[j].sort :: i == j
  }

  lemma {:induction false} UnseenCount(docs: seq<Item>, seen: set<string>, d: Item)
    requires DistinctItems(docs)
    ensures multiset(Unseen(docs, seen))[d] == if d in docs && ItemKey(d) !in seen then 1 else 0
  {
    if docs != [] {
      hide ItemKey;
      SplitLast(docs);
      UnseenCount(docs[..|docs| - 1], seen, d);
    }
  }

  /** What is still missing after inserting some missing documents is the rest of them. */
  lemma MissingShrinks(id: string, c: Checklist, own: seq<Item>, own': seq<Item>, some: multiset<Item>)
    requires Embedded(c) && some <= multiset(Missing(id, c, own)) && multiset(own') == multiset(own) + some
    ensures multiset(Missing(id, c, own')) == multiset(Missing(id, c, own)) - some
  {
    var docs := Docs(id, c);
    hide Docs, Unseen, Keys, Embedded;
    assert SortsDiffer(docs);
    forall d ensures multiset(Missing(id, c, own'))[d] == multiset(Missing(id, c, own))[d] - some[d] {
      UnseenShrink(docs, own, own', some, d);
    }
  }

  lemma UnseenShrink(docs: seq<Item>, own: seq<Item>, own': seq<Item>, some: multiset<Item>, d: Item)
    requires SortsDiffer(docs)
    requires some <= multiset(Unseen(docs, Keys(own))) && multiset(own') == multiset(own) + some
    ensures multiset(Unseen(docs, Keys(own')))[d] == multiset(Unseen(docs, Keys(own)))[d] - some[d]
  {
    hide Unseen, Keys, ItemKey;
    UnseenCount(docs, Keys(own), d);
    UnseenCount(docs, Keys(own'), d);
    if d in docs && ItemKey(d) !in Keys(own) { KeyAppears(docs, own, own', some, d, Keys(own)); }
    KeysGrow(own, own', some);
  }

  lemma KeysGrow(own: seq<Item>, own': seq<Item>, some: multiset<Item>)
    requires multiset(own') == multiset(own) + some
    ensures Keys(own) <= Keys(own')
  {
    forall item | item in own ensures item in own' {
      assert item in multiset(own');
    }
  }

  /** The key of a missing document appears exactly when that document is inserted. */
  lemma KeyAppears(docs: seq<Item>, own: seq<Item>, own': seq<Item>, some: multiset<Item>, d: Item, seen: set<string>)
    requires d in docs && seen == Keys(own) && ItemKey(d) !in seen
    requires SortsDiffer(docs)
    requires some <= multiset(Unseen(docs, seen)) && multiset(own') == multiset(own) + some
    ensures ItemKey(d) in Keys(own') <==> d in some
  {
    UnseenAreSome(docs, seen);
    if d in some {
      assert d in multiset(own');
    }
    if ItemKey(d) in Keys(own') {
      var e :| e in own' && ItemKey(e) == ItemKey(d);
      assert e in multiset(own');
      assert forall x | x in own :: ItemKey(x) in seen;
      assert e !in own;
      assert e in multiset(Unseen(docs, seen));
      KeysTellApart(d, e);
    }
  }

  lemma Regroup(a: multiset<Item>, b: multiset<Item>, c: multiset<Item>)
    ensures (a + b) + c == a + (b + c)
  {}

  lemma TriedInTwoParts(id: string, c: Checklist, c': Checklist, own: seq<Item>, own': seq<Item>,
                        some: multiset<Item>, more: multiset<Item>)
    requires Embedded(c) && (c' == c || c' == c.(items := None))
    requires some + more <= multiset(Missing(id, c, own)) && multiset(own') == (multiset(own) + some) + more
    requires c' != c ==> some + more == multiset(Missing(id, c, own))
    ensures Tried(id, c, c', own, own')
  {
    hide Missing, Embedded;
    Regroup(multiset(own), some, more);
  }

  lemma TriedTwice(id: string, c: Checklist, c': Checklist, c'': Checklist, own: seq<Item>, own': seq<Item>,
                   own'': seq<Item>)
    requires Embedded(c) && Tried(id, c, c', own, own')
    requires if Embedded(c') then Tried(id, c', c'', own', own'') else c'' == c' && own'' == own'
    ensures Tried(id, c, c'', own, own'')
  {
    hide Missing;
    if Embedded(c') {
      assert c' == c;
      var some :| some <= multiset(Missing(id, c, own)) && multiset(own') == multiset(own) + some;
      var more :| more <= multiset(Missing(id, c, own')) && multiset(own'') == multiset(own') + more
                  && (c'' != c ==> more == multiset(Missing(id, c, own')));
      MissingShrinks(id, c, own, own', some);
      hide Embedded;
      TriedInTwoParts(id, c, c'', own, own'', some, more);
    }
  }

  /** Any number of attempts, each broken off anywhere, does together no more than one may do. */
  lemma {:induction false} AttemptsActAsOne(trace: seq<Store>)
    requires trace != [] && forall i | 0 <= i < |trace| - 1 :: Attempted(trace[i], trace[i + 1])
    ensures Attempted(trace[0], trace[|trace| - 1])
    decreases |trace|
  {
    if |trace| == 1 {
      NotYetTried(trace[0]);
    } else {
      var s, t, u := trace[0], trace[|trace| - 2], trace[|trace| - 1];
      AttemptsActAsOne(trace[..|trace| - 1]);
      assert Attempted(t, u) by { assert Attempted(trace[|trace| - 2], trace[|trace| - 2 + 1]); }
      forall id | id in s.checklists ensures TriedOn(s, u, id) {
        assert TriedOn(s, t, id) && TriedOn(t, u, id);
        if Embedded(s.checklists[id]) {
          TriedTwice(id, s.checklists[id], t.checklists[id], u.checklists[id], Of(s.items, id), Of(t.items, id),
            Of(u.items, id));
        }
      }
    }
  }

  /** Once a checklist's embedded items are gone, after any attempts, it has exactly one document for every
      embedded item, in addition to what was there before. */
  lemma ExactlyOnce(trace: seq<Store>, id: string)
    requires trace != [] && forall i | 0 <= i < |trace| - 1 :: Attempted(trace[i], trace[i + 1])
    requires id in trace[0].checklists && Embedded(trace[0].checklists[id])
    requires id in trace[|trace| - 1].checklists ==> !Embedded(trace[|trace| - 1].checklists[id])
    ensures var c, own, own' := trace[0].checklists[id], Of(trace[0].items, id), Of(trace[|trace| - 1].items, id);
            && multiset(own') == multiset(own) + multiset(Missing(id, c, own))
            && (forall d | d in Docs(id, c) :: ItemKey(d) in Keys(own'))
            && (own == [] ==> multiset(own') == multiset(Docs(id, c)))
  {
    AttemptsActAsOne(trace);
    var c, own, own' := trace[0].checklists[id], Of(trace[0].items, id), Of(trace[|trace| - 1].items, id);
    assert TriedOn(trace[0], trace[|trace| - 1], id);
    assert multiset(own') == multiset(own) + multiset(Missing(id, c, own));
    KeysGrow(own, own', multiset(Missing(id, c, own)));
    UnseenAreSome(Docs(id, c), Keys(own));
    forall d | d in Docs(id, c) ensures ItemKey(d) in Keys(own') {
      if ItemKey(d) !in Keys(own) { assert d in multiset(own'); }
    }
    if own == [] {
      assert Keys(own) == {};
      NoneSeen(Docs(id, c));
    }
  }

  lemma {:induction false} NoneSeen(docs: seq<Item>)
    ensures Unseen(docs, {}) == docs
  {
    hide ItemKey;
    if docs != [] {
      NoneSeen(docs[..|docs| - 1]);
      assert docs == docs[..|docs| - 1] + [docs[|docs| - 1]];
    }
  }

  /** What becomes of an embedded entry: it keeps its title, unless that is empty, and its flag, and gets its place
      in the order of the sort values as position, and the checklist and its card. */
  lemma EntriesBecomeDocuments(id: string, c: Checklist, i: nat)
    requires Embedded(c)
    ensures |Docs(id, c)| == |c.items.value|
    ensures i < |c.items.value| ==>
              var entry, doc := Sorted(c.items.value)[i], Docs(id, c)[i];
              && (entry.title != "" ==> doc.title == entry.title) && (entry.title == "" ==> doc.title == "Checklist")
              && doc.sort == Some(i) && doc.finished == entry.finished
              && doc.checklistId == id && doc.cardId == c.cardId
  {
    SortedLength(c.items.value);
  }

  lemma {:induction false} SortedLength(entries: seq<Entry>)
    ensures |Sorted(entries)| == |entries|
  {
    if entries != [] {
      SortedLength(entries[..|entries| - 1]);
      InsertLength(Sorted(entries[..|entries| - 1]), entries[|entries| - 1]);
    }
  }

  lemma {:induction false} InsertLength(r: seq<Entry>, x: Entry)
    ensures |Insert(r, x)| == |r| + 1
  {
    if r != [] { InsertLength(r[..|r| - 1], x); }
  }
}
