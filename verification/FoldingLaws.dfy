/**
 The fold conserves what it counts, keeps rows in order of first encounter under the cap
 of 50 actors, and is incremental: folding stored rows again before new events gives the
 totals of folding everything at once.
 */
module FoldingLaws {
  import opened Optional
  import opened Folding
  import opened Sums

  // ---- order and cap ----

  /** The distinct keys of the documents, each at its first occurrence. */
  function FirstOccurrences(docs: seq<Event>): seq<string>
    decreases |docs|
  {
    if docs == [] then []
    else
      var earlier := FirstOccurrences(docs[..|docs| - 1]);
      var k := Key(docs[|docs| - 1]);
      if k in earlier then earlier else earlier + [k]
  }

  ghost predicate WellFormedRow(r: Row) {
    && r.count > 0.0 && |r.table.actors| <= MAX_ACTORS
    && r.at == DateValue(r.last) && r.firstAt == DateValue(r.first) && (r.first.Ms? <==> r.last.Ms?)
  }

  ghost predicate WellFormed(rows: seq<Row>) {
    && (forall i | 0 <= i < |rows| :: WellFormedRow(rows[i]))
    && (forall i, j | 0 <= i < j < |rows| :: RowKey(rows[i]) != RowKey(rows[j]))
  }

  lemma {:induction false} StoredKeepsCap(t: Table, entries: seq<Entry>)
    requires |t.actors| <= MAX_ACTORS
    ensures |AddAllStored(t, entries).actors| <= MAX_ACTORS
    decreases |entries|
  {
    if entries != [] { StoredKeepsCap(t, entries[..|entries| - 1]); }
  }

  lemma {:induction false} DerivedKeepsCap(t: Table, entries: seq<Entry>)
    requires |t.actors| <= MAX_ACTORS
    ensures |AddAllDerived(t, entries).actors| <= MAX_ACTORS
    decreases |entries|
  {
    if entries != [] { DerivedKeepsCap(t, entries[..|entries| - 1]); }
  }

  lemma ActorsKeepCap(t: Table, e: Event)
    requires |t.actors| <= MAX_ACTORS
    ensures |AddActors(t, e).actors| <= MAX_ACTORS
  {
    if e.stored.Some? { StoredKeepsCap(t, e.stored.value.entries); } else { DerivedKeepsCap(t, ActorsOf(e)); }
  }

  lemma FoldOneKeys(rows: seq<Row>, e: Event)
    ensures KeysOf(FoldOne(rows, e)) == if Key(e) in KeysOf(rows) then KeysOf(rows) else KeysOf(rows) + [Key(e)]
  {
    hide AddActors, Weight;
    var i := IndexOf(KeysOf(rows), Key(e));
    if i < |rows| {
      assert KeysOf(rows)[i] == Key(e);
      assert KeysOf(FoldOne(rows, e)) == KeysOf(rows);
    } else {
      assert KeysOf(FoldOne(rows, e)) == KeysOf(rows) + [Key(e)];
    }
  }

  lemma MergeKeepsForm(r: Row, e: Event)
    requires WellFormedRow(r)
    ensures WellFormedRow(MergeRow(r, e))
  {
    ActorsKeepCap(r.table, e);
    hide AddActors;
  }

  lemma NewRowHasForm(e: Event)
    ensures WellFormedRow(NewRow(e))
  {
    ActorsKeepCap(Table(map[], 0.0), e);
    hide AddActors;
  }

  lemma FoldOneKeepsForm(rows: seq<Row>, e: Event)
    requires WellFormed(rows)
    ensures WellFormed(FoldOne(rows, e))
    ensures KeysOf(FoldOne(rows, e)) == if Key(e) in KeysOf(rows) then KeysOf(rows) else KeysOf(rows) + [Key(e)]
  {
    FoldOneKeys(rows, e);
    var i := IndexOf(KeysOf(rows), Key(e));
    if i < |rows| {
      MergeKeepsForm(rows[i], e);
    } else {
      NewRowHasForm(e);
      assert forall j | 0 <= j < |rows| :: RowKey(rows[j]) == KeysOf(rows)[j];
    }
    hide WellFormedRow, AddActors, Weight;
  }

  /** One row per identity key, in order of first encounter, none with more than 50 actors. */
  lemma {:induction false} RowsInFirstEncounterOrder(docs: seq<Event>)
    ensures WellFormed(FoldAll([], docs))
    ensures KeysOf(FoldAll([], docs)) == FirstOccurrences(docs)
    decreases |docs|
  {
    if docs != [] {
      RowsInFirstEncounterOrder(docs[..|docs| - 1]);
      FoldOneKeepsForm(FoldAll([], docs[..|docs| - 1]), docs[|docs| - 1]);
    }
  }

  // ---- conservation ----

  function Counts(m: map<string, Tally>): map<string, real> {
    map k | k in m :: m[k].count
  }

  lemma CountsUpdate(m: map<string, Tally>, k: string, t: Tally)
    ensures MapSum(Counts(m[k := t])) == MapSum(Counts(m)) + t.count - (if k in m then m[k].count else 0.0)
  {
    assert Counts(m[k := t]) == Counts(m)[k := t.count];
    MapSumUpdate(Counts(m), k, t.count);
  }

  ghost function Total(t: Table): real {
    MapSum(Counts(t.actors)) + t.overflow
  }

  function EntrySum(entries: seq<Entry>): real
    decreases |entries|
  {
    if entries == [] then 0.0 else EntrySum(entries[..|entries| - 1]) + entries[|entries| - 1].tally.count
  }

  /** What a document contributes to its row's actors and overflow. */
  function Contribution(e: Event): real {
    if e.stored.Some? then EntrySum(e.stored.value.entries) + e.stored.value.overflow else EntrySum(ActorsOf(e))
  }

  lemma {:induction false} StoredConserves(t: Table, entries: seq<Entry>)
    ensures Total(AddAllStored(t, entries)) == Total(t) + EntrySum(entries)
    decreases |entries|
  {
    if entries != [] {
      var before, e := AddAllStored(t, entries[..|entries| - 1]), entries[|entries| - 1];
      StoredConserves(t, entries[..|entries| - 1]);
      var after := AddStored(before, e).actors;
      CountsUpdate(before.actors, e.key, if e.key in after then after[e.key] else e.tally);
    }
  }

  lemma {:induction false} DerivedConserves(t: Table, entries: seq<Entry>)
    ensures Total(AddAllDerived(t, entries)) == Total(t) + EntrySum(entries)
    decreases |entries|
  {
    if entries != [] {
      var before, e := AddAllDerived(t, entries[..|entries| - 1]), entries[|entries| - 1];
      DerivedConserves(t, entries[..|entries| - 1]);
      var after := AddDerived(before, e).actors;
      CountsUpdate(before.actors, e.key, if e.key in after then after[e.key] else e.tally);
    }
  }

  lemma ActorsConserve(t: Table, e: Event)
    ensures Total(AddActors(t, e)) == Total(t) + Contribution(e)
  {
    if e.stored.Some? {
      StoredConserves(t, e.stored.value.entries);
    } else {
      DerivedConserves(t, ActorsOf(e));
    }
  }

  /** The weights of the documents with key k, and what they contribute to actors. */
  function WeightOf(docs: seq<Event>, k: string): real
    decreases |docs|
  {
    if docs == [] then 0.0
    else WeightOf(docs[..|docs| - 1], k) + if Key(docs[|docs| - 1]) == k then Weight(docs[|docs| - 1]) else 0.0
  }

  function ContributionOf(docs: seq<Event>, k: string): real
    decreases |docs|
  {
    if docs == [] then 0.0
    else
      ContributionOf(docs[..|docs| - 1], k)
      + if Key(docs[|docs| - 1]) == k then Contribution(docs[|docs| - 1]) else 0.0
  }

  lemma {:induction false} AbsentKeyHasNoWeight(docs: seq<Event>, k: string)
    requires k !in FirstOccurrences(docs)
    ensures WeightOf(docs, k) == 0.0 && ContributionOf(docs, k) == 0.0
    decreases |docs|
  {
    if docs != [] { AbsentKeyHasNoWeight(docs[..|docs| - 1], k); }
  }

  /** Every row counts exactly the weights of its key's documents, and its actor counts plus
      overflow are exactly what those documents contributed, capped or not. */
  lemma {:induction false} RowsConserve(docs: seq<Event>, i: nat)
    requires i < |FoldAll([], docs)|
    ensures var r := FoldAll([], docs)[i];
            r.count == WeightOf(docs, RowKey(r)) && Total(r.table) == ContributionOf(docs, RowKey(r))
    decreases |docs|
  {
    if docs == [] { return; }
    var most, e := docs[..|docs| - 1], docs[|docs| - 1];
    var rows := FoldAll([], most);
    hide FoldOne, WellFormedRow, Total, MergeRow, NewRow, Contribution, Weight;
    RowsInFirstEncounterOrder(most);
    if i < |rows| {
      RowsConserve(most, i);
      MergeAddsUp(rows[i], e);
      FoldOneAt(rows, e, i);
    } else {
      LastIsNew(rows, e, i);
      NewRowAddsUp(e);
      AbsentKeyHasNoWeight(most, Key(e));
    }
  }

  lemma MergeAddsUp(r: Row, e: Event)
    ensures MergeRow(r, e).count == r.count + Weight(e) && RowKey(MergeRow(r, e)) == RowKey(r)
    ensures Total(MergeRow(r, e).table) == Total(r.table) + Contribution(e)
  {
    ActorsConserve(r.table, e);
    hide AddActors, Total;
  }

  lemma NewRowAddsUp(e: Event)
    ensures NewRow(e).count == Weight(e) && RowKey(NewRow(e)) == Key(e) && Total(NewRow(e).table) == Contribution(e)
  {
    ActorsConserve(Table(map[], 0.0), e);
    NothingTotalled();
    hide AddActors, Total;
  }

  lemma NothingTotalled()
    ensures Total(Table(map[], 0.0)) == 0.0
  {
    assert Counts(map[]) == map[];
  }

  function SumWeights(docs: seq<Event>): real
    decreases |docs|
  {
    if docs == [] then 0.0 else SumWeights(docs[..|docs| - 1]) + Weight(docs[|docs| - 1])
  }

  function SumCounts(rows: seq<Row>): real
    decreases |rows|
  {
    if rows == [] then 0.0 else SumCounts(rows[..|rows| - 1]) + rows[|rows| - 1].count
  }

  lemma {:induction false} SumCountsUpdate(rows: seq<Row>, i: nat, r: Row)
    requires i < |rows|
    ensures SumCounts(rows[i := r]) == SumCounts(rows) - rows[i].count + r.count
    decreases |rows|
  {
    var most := rows[..|rows| - 1];
    if i == |rows| - 1 {
      assert rows[i := r][..i] == most;
    } else {
      assert rows[i := r][..|rows| - 1] == most[i := r];
      SumCountsUpdate(most, i, r);
    }
  }

  /** The row counts of a fold sum to the input weights. */
  lemma {:induction false} CountsSumToWeights(docs: seq<Event>)
    ensures SumCounts(FoldAll([], docs)) == SumWeights(docs)
    decreases |docs|
  {
    if docs != [] {
      var rows, e := FoldAll([], docs[..|docs| - 1]), docs[|docs| - 1];
      CountsSumToWeights(docs[..|docs| - 1]);
      var i := IndexOf(KeysOf(rows), Key(e));
      if i < |rows| {
        SumCountsUpdate(rows, i, MergeRow(rows[i], e));
      } else {
        assert FoldOne(rows, e)[..|rows|] == rows;
      }
    }
  }

  // ---- dates ----

  /** Some document of key k carries date d. */
  ghost predicate Dated(docs: seq<Event>, k: string, d: Stamp) {
    exists n :: 0 <= n < |docs| && Key(docs[n]) == k && docs[n].at == d
  }

  ghost predicate Spans(docs: seq<Event>, r: Row) {
    && Dated(docs, RowKey(r), r.first) && Dated(docs, RowKey(r), r.last)
    && (r.first.Ms? && r.last.Ms? ==> forall n | 0 <= n < |docs| && Key(docs[n]) == RowKey(r) && docs[n].at.Ms? ::
          r.first.ms <= docs[n].at.ms <= r.last.ms)
  }

  lemma NothingDated(docs: seq<Event>, k: string)
    requires k !in FirstOccurrences(docs)
    ensures forall n | 0 <= n < |docs| :: Key(docs[n]) != k
    decreases |docs|
  {
    if docs != [] {
      NothingDated(docs[..|docs| - 1], k);
      forall n | 0 <= n < |docs| ensures Key(docs[n]) != k {
        if n < |docs| - 1 { assert docs[..|docs| - 1][n] == docs[n]; }
      }
    }
  }

  lemma DatedExtends(docs: seq<Event>, e: Event, k: string, d: Stamp)
    ensures Dated(docs, k, d) ==> Dated(docs + [e], k, d)
    ensures Key(e) == k && e.at == d ==> Dated(docs + [e], k, d)
  {
    if Dated(docs, k, d) {
      var n :| 0 <= n < |docs| && Key(docs[n]) == k && docs[n].at == d;
      assert (docs + [e])[n] == docs[n];
    }
    assert (docs + [e])[|docs|] == e;
  }

  lemma SpansStep(docs: seq<Event>, e: Event, r: Row, r': Row)
    requires RowKey(r') == RowKey(r) && Spans(docs, r) && (r.first.Ms? <==> r.last.Ms?)
             && (r.last.Ms? ==> r.first.ms <= r.last.ms)
    requires r' == if Key(e) == RowKey(r) then MergeRow(r, e) else r
    ensures Spans(docs + [e], r')
  {
    DatedExtends(docs, e, RowKey(r), r.first);
    DatedExtends(docs, e, RowKey(r), r.last);
    DatedExtends(docs, e, RowKey(r), e.at);
    hide Dated, AddActors;
    forall n | 0 <= n < |docs + [e]| && Key((docs + [e])[n]) == RowKey(r) && (docs + [e])[n].at.Ms? && r'.last.Ms?
      ensures r'.first.ms <= (docs + [e])[n].at.ms <= r'.last.ms
    {
      if n < |docs| { assert (docs + [e])[n] == docs[n]; }
    }
  }

  ghost predicate DatesInOrder(r: Row) {
    r.last.Ms? ==> r.first.Ms? && r.first.ms <= r.last.ms
  }

  /** What one more document does to the row at position i. */
  lemma FoldOneAt(rows: seq<Row>, e: Event, i: nat)
    requires WellFormed(rows) && i < |rows|
    ensures i < |FoldOne(rows, e)|
    ensures FoldOne(rows, e)[i] == if Key(e) == RowKey(rows[i]) then MergeRow(rows[i], e) else rows[i]
  {
    hide WellFormedRow, AddActors, MergeRow, NewRow;
    assert KeysOf(rows)[i] == RowKey(rows[i]);
    var k := IndexOf(KeysOf(rows), Key(e));
    if k < |rows| { assert KeysOf(rows)[k] == RowKey(rows[k]); }
  }

  lemma NewRowSpans(docs: seq<Event>, e: Event)
    requires Key(e) !in FirstOccurrences(docs)
    ensures Spans(docs + [e], NewRow(e)) && DatesInOrder(NewRow(e))
  {
    hide AddActors;
    NothingDated(docs, Key(e));
    DatedExtends(docs, e, Key(e), e.at);
    assert forall n | 0 <= n < |docs| :: (docs + [e])[n] == docs[n];
  }

  lemma MergeKeepsDates(r: Row, e: Event)
    requires WellFormedRow(r) && DatesInOrder(r)
    ensures DatesInOrder(MergeRow(r, e))
  {
    hide AddActors;
  }

  /** A row's first and last dates are dates of its documents, and its documents' dates lie between them. */
  lemma {:induction false} RowDatesSpanDocuments(docs: seq<Event>, i: nat)
    requires i < |FoldAll([], docs)|
    ensures Spans(docs, FoldAll([], docs)[i]) && DatesInOrder(FoldAll([], docs)[i])
    decreases |docs|
  {
    hide Spans, WellFormedRow, FoldOne, MergeRow, NewRow, DatesInOrder;
    if docs == [] { return; }
    var most, e := docs[..|docs| - 1], docs[|docs| - 1];
    var rows := FoldAll([], most);
    assert docs == most + [e];
    RowsInFirstEncounterOrder(most);
    if i < |rows| {
      RowDatesSpanDocuments(most, i);
      FoldOneAt(rows, e, i);
      RowStillSpans(most, e, rows, i);
    } else {
      LastIsNew(rows, e, i);
      NewRowSpans(most, e);
    }
  }

  lemma RowStillSpans(docs: seq<Event>, e: Event, rows: seq<Row>, i: nat)
    requires WellFormed(rows) && i < |rows| && Spans(docs, rows[i]) && DatesInOrder(rows[i])
    ensures var r := if Key(e) == RowKey(rows[i]) then MergeRow(rows[i], e) else rows[i];
            Spans(docs + [e], r) && DatesInOrder(r)
  {
    MergeKeepsDates(rows[i], e);
    SpansStep(docs, e, rows[i], if Key(e) == RowKey(rows[i]) then MergeRow(rows[i], e) else rows[i]);
  }

  lemma LastIsNew(rows: seq<Row>, e: Event, i: nat)
    requires |rows| <= i < |FoldOne(rows, e)|
    ensures FoldOne(rows, e)[i] == NewRow(e) && Key(e) !in KeysOf(rows)
  {
    hide NewRow, MergeRow;
  }

  // ---- folding again ----

  /** The entries list each actor of the map once, in any order. */
  ghost predicate Lists(entries: seq<Entry>, m: map<string, Tally>) {
    && (forall i, j | 0 <= i < j < |entries| :: entries[i].key != entries[j].key)
    && (forall i | 0 <= i < |entries| :: entries[i].key in m && entries[i].tally == m[entries[i].key])
    && (forall k | k in m :: exists i :: 0 <= i < |entries| && entries[i].key == k)
  }

  /** `e` is row r read back as a document; a missing date reads as the epoch. */
  ghost predicate ReadBack(r: Row, e: Event) {
    && e.identity == r.identity && e.latest == r.latest && e.count == Some(r.count) && e.at == Ms(DateOf(r.at))
    && e.stored.Some? && e.stored.value.overflow == r.table.overflow && Lists(e.stored.value.entries, r.table.actors)
  }

  ghost predicate AllReadBack(rows: seq<Row>, docs: seq<Event>) {
    |docs| == |rows| && forall i | 0 <= i < |rows| :: ReadBack(rows[i], docs[i])
  }

  function MapOf(entries: seq<Entry>): map<string, Tally>
    decreases |entries|
  {
    if entries == [] then map[]
    else
      var last := entries[|entries| - 1];
      MapOf(entries[..|entries| - 1])[last.key := last.tally]
  }

  lemma {:induction false} MapOfKeys(entries: seq<Entry>)
    ensures forall k :: k in MapOf(entries) <==> exists i :: 0 <= i < |entries| && entries[i].key == k
    decreases |entries|
  {
    if entries != [] {
      var most, last := entries[..|entries| - 1], entries[|entries| - 1];
      MapOfKeys(most);
      assert forall i | 0 <= i < |most| :: entries[i] == most[i];
      assert MapOf(entries) == MapOf(most)[last.key := last.tally];
      assert last.key in MapOf(entries);
      forall i | 0 <= i < |entries| ensures entries[i].key in MapOf(entries) {
        if i < |most| { assert most[i].key in MapOf(most); }
      }
    }
  }

  lemma AddsNewTally(t: Table, e: Entry)
    requires e.key !in t.actors && |t.actors| < MAX_ACTORS
    ensures AddStored(t, e) == t.(actors := t.actors[e.key := e.tally])
  {}

  lemma {:induction false} StoredIntoEmpty(entries: seq<Entry>)
    requires |entries| <= MAX_ACTORS
    requires forall i, j | 0 <= i < j < |entries| :: entries[i].key != entries[j].key
    ensures AddAllStored(Table(map[], 0.0), entries) == Table(MapOf(entries), 0.0)
    ensures |MapOf(entries)| == |entries|
    ensures forall i | 0 <= i < |entries| ::
              entries[i].key in MapOf(entries) && MapOf(entries)[entries[i].key] == entries[i].tally
    decreases |entries|
  {
    if entries != [] {
      var most := entries[..|entries| - 1];
      StoredIntoEmpty(most);
      MapOfKeys(most);
      hide AddStored;
      assert entries[|entries| - 1].key !in MapOf(most);
      AddsNewTally(Table(MapOf(most), 0.0), entries[|entries| - 1]);
      hide AddAllStored;
      forall i | 0 <= i < |entries|
        ensures entries[i].key in MapOf(entries) && MapOf(entries)[entries[i].key] == entries[i].tally
      {
        if i < |most| { assert entries[i] == most[i]; }
      }
    }
  }

  lemma {:induction false} ListedLength(entries: seq<Entry>, m: map<string, Tally>)
    requires forall i, j | 0 <= i < j < |entries| :: entries[i].key != entries[j].key
    requires forall i | 0 <= i < |entries| :: entries[i].key in m
    ensures |entries| <= |m|
    decreases |entries|
  {
    if entries != [] {
      var last := entries[|entries| - 1].key;
      ListedLength(entries[..|entries| - 1], m - {last});
      assert m == (m - {last})[last := m[last]];
    }
  }

  lemma ListedMap(entries: seq<Entry>, m: map<string, Tally>)
    requires Lists(entries, m) && |entries| <= MAX_ACTORS
    ensures MapOf(entries) == m && AddAllStored(Table(map[], 0.0), entries) == Table(m, 0.0)
  {
    StoredIntoEmpty(entries);
    MapOfKeys(entries);
    hide MapOf, AddAllStored;
    forall k ensures k in MapOf(entries) <==> k in m {}
  }

  /** Rebuilding a row's table from its own stored tallies restores it exactly. */
  lemma ReadBackTable(r: Row, e: Event)
    requires WellFormedRow(r) && ReadBack(r, e)
    ensures AddActors(Table(map[], 0.0), e) == r.table
  {
    var entries := e.stored.value.entries;
    hide AddAllStored;
    ListedLength(entries, r.table.actors);
    ListedMap(entries, r.table.actors);
  }

  ghost predicate SameTotals(r: Row, s: Row) {
    r.identity == s.identity && r.count == s.count && r.table == s.table
  }

  ghost predicate SameRecent(r: Row, s: Row) {
    r.last == s.last && r.at == s.at && r.latest == s.latest
  }

  /** Row for row the same totals, and the same latest fields except under the keys in `undated`. */
  ghost predicate Agree(rows: seq<Row>, others: seq<Row>, undated: set<string>) {
    && |rows| == |others|
    && (forall i | 0 <= i < |rows| :: SameTotals(rows[i], others[i]))
    && (forall i | 0 <= i < |rows| && RowKey(rows[i]) !in undated :: SameRecent(rows[i], others[i]))
  }

  lemma MergeAgrees(r: Row, s: Row, e: Event)
    requires SameTotals(r, s)
    ensures SameTotals(MergeRow(r, e), MergeRow(s, e)) && RowKey(MergeRow(r, e)) == RowKey(r)
    ensures SameRecent(r, s) ==> SameRecent(MergeRow(r, e), MergeRow(s, e))
  {
    hide AddActors, Weight;
  }

  lemma FoldOneAgrees(rows: seq<Row>, others: seq<Row>, undated: set<string>, e: Event)
    requires Agree(rows, others, undated)
    ensures Agree(FoldOne(rows, e), FoldOne(others, e), undated)
  {
    assert KeysOf(rows) == KeysOf(others);
    hide AddActors, MergeRow, NewRow;
    var i := IndexOf(KeysOf(rows), Key(e));
    if i < |rows| {
      MergeAgrees(rows[i], others[i], e);
    }
  }

  lemma {:induction false} FoldAllAgrees(rows: seq<Row>, others: seq<Row>, undated: set<string>, docs: seq<Event>)
    requires Agree(rows, others, undated)
    ensures Agree(FoldAll(rows, docs), FoldAll(others, docs), undated)
    decreases |docs|
  {
    if docs != [] {
      FoldAllAgrees(rows, others, undated, docs[..|docs| - 1]);
      FoldOneAgrees(FoldAll(rows, docs[..|docs| - 1]), FoldAll(others, docs[..|docs| - 1]), undated, docs[|docs| - 1]);
    }
  }

  lemma {:induction false} FoldAllAppends(rows: seq<Row>, xs: seq<Event>, ys: seq<Event>)
    ensures FoldAll(rows, xs + ys) == FoldAll(FoldAll(rows, xs), ys)
    decreases |ys|
  {
    if ys == [] {
      assert xs + ys == xs;
    } else {
      FoldAllAppends(rows, xs, ys[..|ys| - 1]);
      assert (xs + ys)[..|xs + ys| - 1] == xs + ys[..|ys| - 1];
    }
  }

  /** The keys of the rows without a valid date. */
  function Undated(rows: seq<Row>): set<string> {
    set i | 0 <= i < |rows| && rows[i].at == None :: RowKey(rows[i])
  }

  lemma FoldOneReadBack(rows: seq<Row>, folded: seq<Row>, undated: set<string>, r: Row, e: Event)
    requires Agree(rows, folded, undated) && WellFormedRow(r) && ReadBack(r, e)
    requires forall j | 0 <= j < |rows| :: RowKey(rows[j]) != RowKey(r)
    requires r.at == None ==> RowKey(r) in undated
    ensures Agree(rows + [r], FoldOne(folded, e), undated)
  {
    ReadBackTable(r, e);
    forall j | 0 <= j < |folded| ensures RowKey(folded[j]) != Key(e) {
      assert SameTotals(rows[j], folded[j]);
    }
    FoldOneAppends(folded, e);
    AgreeAppend(rows, folded, undated, r, NewRow(e));
  }

  lemma UndatedHas(rows: seq<Row>, i: nat)
    requires i < |rows| && rows[i].at == None
    ensures RowKey(rows[i]) in Undated(rows)
  {}

  lemma NothingDisagrees(undated: set<string>)
    ensures Agree([], [], undated)
  {}

  /** Folding rows that were read back gives those rows again. */
  lemma {:induction false} FoldReadBack(rows: seq<Row>, docs: seq<Event>, n: nat)
    requires WellFormed(rows) && AllReadBack(rows, docs) && n <= |rows|
    ensures Agree(rows[..n], FoldAll([], docs[..n]), Undated(rows))
    decreases n
  {
    hide Agree, Undated, ReadBack, WellFormedRow, FoldOne;
    if n > 0 {
      FoldReadBack(rows, docs, n - 1);
      assert docs[..n][..n - 1] == docs[..n - 1];
      assert rows[..n] == rows[..n - 1] + [rows[n - 1]];
      if rows[n - 1].at == None { UndatedHas(rows, n - 1); }
      FoldOneReadBack(rows[..n - 1], FoldAll([], docs[..n - 1]), Undated(rows), rows[n - 1], docs[n - 1]);
    } else {
      NothingDisagrees(Undated(rows));
    }
  }

  lemma FoldOneAppends(rows: seq<Row>, e: Event)
    requires forall j | 0 <= j < |rows| :: RowKey(rows[j]) != Key(e)
    ensures FoldOne(rows, e) == rows + [NewRow(e)]
  {
    assert forall j | 0 <= j < |rows| :: KeysOf(rows)[j] != Key(e);
  }

  lemma AgreeAppend(rows: seq<Row>, others: seq<Row>, undated: set<string>, r: Row, s: Row)
    requires Agree(rows, others, undated) && SameTotals(r, s) && (RowKey(r) !in undated ==> SameRecent(r, s))
    ensures Agree(rows + [r], others + [s], undated)
  {}

  /** Folding is incremental: rows folded from xs, read back in any actor order and folded with ys,
      agree with folding xs and ys at once; cap decisions included. */
  lemma FoldingIsIncremental(xs: seq<Event>, stored: seq<Event>, ys: seq<Event>)
    requires AllReadBack(FoldAll([], xs), stored)
    ensures Agree(FoldAll([], xs + ys), FoldAll([], stored + ys), Undated(FoldAll([], xs)))
  {
    var rows := FoldAll([], xs);
    RowsInFirstEncounterOrder(xs);
    FoldReadBack(rows, stored, |rows|);
    assert rows[..|rows|] == rows && stored[..|rows|] == stored;
    FoldAllAppends([], xs, ys);
    FoldAllAppends([], stored, ys);
    FoldAllAgrees(rows, FoldAll([], stored), Undated(rows), ys);
  }

  // ---- what is not incremental: firstAt ----

  /** Document n of `docs` carries key k and a date no later than `limit`. */
  predicate DatedBy(docs: seq<Event>, n: nat, k: string, limit: int)
    requires n < |docs|
  {
    Key(docs[n]) == k && docs[n].at.Ms? && docs[n].at.ms <= limit
  }

  /** The first date of a row of key k that has seen `docs`. */
  function Earliest(first: Stamp, docs: seq<Event>, k: string): Stamp
    decreases |docs|
  {
    if docs == [] then first
    else
      var before, e := Earliest(first, docs[..|docs| - 1], k), docs[|docs| - 1];
      if Key(e) == k && Earlier(e.at, before) then e.at else before
  }

  lemma {:induction false} FirstOfRow(rows: seq<Row>, docs: seq<Event>, i: nat)
    requires WellFormed(rows) && i < |rows|
    ensures WellFormed(FoldAll(rows, docs)) && i < |FoldAll(rows, docs)|
    ensures var row := FoldAll(rows, docs)[i];
            RowKey(row) == RowKey(rows[i]) && row.first == Earliest(rows[i].first, docs, RowKey(rows[i]))
    decreases |docs|
  {
    if docs != [] {
      FirstOfRow(rows, docs[..|docs| - 1], i);
      hide FoldOne, WellFormed, AddActors;
      FoldOneKeepsForm(FoldAll(rows, docs[..|docs| - 1]), docs[|docs| - 1]);
      FoldOneAt(FoldAll(rows, docs[..|docs| - 1]), docs[|docs| - 1], i);
    }
  }

  lemma {:induction false} UndatedStaysUndated(docs: seq<Event>, k: string)
    ensures Earliest(NotADate, docs, k) == NotADate
    decreases |docs|
  {
    if docs != [] { UndatedStaysUndated(docs[..|docs| - 1], k); }
  }

  lemma {:induction false} DatedStaysDated(first: int, docs: seq<Event>, k: string)
    ensures Earliest(Ms(first), docs, k).Ms?
    decreases |docs|
  {
    if docs != [] { DatedStaysDated(first, docs[..|docs| - 1], k); }
  }

  /** Two first dates are levelled exactly by a date no later than the earlier one. */
  lemma {:induction false} LevelledExactlyWhen(first: int, later: int, docs: seq<Event>, k: string)
    requires first < later
    ensures var a, b := Earliest(Ms(first), docs, k), Earliest(Ms(later), docs, k);
            if exists n: nat :: n < |docs| && DatedBy(docs, n, k, first) then a == b
            else a == Ms(first) && b.Ms? && b.ms > first
    decreases |docs|
  {
    if docs != [] {
      var most := docs[..|docs| - 1];
      LevelledExactlyWhen(first, later, most, k);
      DatedStaysDated(first, most, k);
      assert forall n: nat | n < |most| :: DatedBy(docs, n, k, first) <==> DatedBy(most, n, k, first);
      if n: nat :| n < |most| && DatedBy(most, n, k, first) { assert DatedBy(docs, n, k, first); }
      if DatedBy(docs, |most|, k, first) { assert exists n: nat :: n < |docs| && DatedBy(docs, n, k, first); }
    }
  }

  lemma NewAmongReadBack(rows: seq<Row>, docs: seq<Event>, before: seq<Row>, n: nat)
    requires WellFormed(rows) && AllReadBack(rows, docs) && n < |rows|
    requires Agree(rows[..n], before, Undated(rows))
    ensures FoldOne(before, docs[n]) == before + [NewRow(docs[n])] && |before| == n
  {
    hide FoldOne, NewRow, WellFormedRow;
    assert ReadBack(rows[n], docs[n]);
    forall j | 0 <= j < |before| ensures RowKey(before[j]) != Key(docs[n]) {
      assert SameTotals(rows[..n][j], before[j]);
    }
    FoldOneAppends(before, docs[n]);
  }

  /** Read back and folded again, every row starts from its stored document alone. */
  lemma {:induction false} RefoldedRow(rows: seq<Row>, docs: seq<Event>, n: nat, i: nat)
    requires WellFormed(rows) && AllReadBack(rows, docs) && i < n <= |rows|
    ensures i < |FoldAll([], docs[..n])| == n && FoldAll([], docs[..n])[i] == NewRow(docs[i])
    decreases n
  {
    hide FoldOne, NewRow, WellFormed, ReadBack, Agree;
    FoldReadBack(rows, docs, n - 1);
    assert docs[..n][..n - 1] == docs[..n - 1] && docs[..n][n - 1] == docs[n - 1];
    NewAmongReadBack(rows, docs, FoldAll([], docs[..n - 1]), n - 1);
    if i < n - 1 { RefoldedRow(rows, docs, n - 1, i); }
  }

  /** What is not incremental: after reading rows back, folding them again and folding more events, a row has the
      first date that folding everything at once gives exactly when it is dated and its first date was its last,
      or one of the further events of its key is no later. */
  lemma FirstAtSurvivesExactlyWhen(xs: seq<Event>, stored: seq<Event>, ys: seq<Event>, i: nat)
    requires AllReadBack(FoldAll([], xs), stored) && i < |FoldAll([], xs)|
    ensures i < |FoldAll([], stored + ys)| && i < |FoldAll([], xs + ys)|
    ensures var r := FoldAll([], xs)[i];
            FoldAll([], stored + ys)[i].firstAt == FoldAll([], xs + ys)[i].firstAt <==>
              r.at.Some? && (r.firstAt == r.at
                             || (r.firstAt.Some? && exists n: nat ::
                                   n < |ys| && DatedBy(ys, n, RowKey(r), r.firstAt.value)))
  {
    var rows, refolded := FoldAll([], xs), FoldAll([], stored);
    var r := rows[i];
    RowsInFirstEncounterOrder(xs);
    RowsInFirstEncounterOrder(stored);
    RowDatesSpanDocuments(xs, i);
    RefoldedRow(rows, stored, |rows|, i);
    assert stored[..|rows|] == stored;
    assert ReadBack(r, stored[i]) && WellFormedRow(r);
    FoldAllAppends([], xs, ys);
    FoldAllAppends([], stored, ys);
    FirstOfRow(rows, ys, i);
    FirstOfRow(refolded, ys, i);
    var a, b := FoldAll(rows, ys)[i], FoldAll(refolded, ys)[i];
    assert WellFormedRow(a) && WellFormedRow(b);
    hide FoldAll, AllReadBack, Spans, NewRow, ReadBack, WellFormed;
    FirstDatesMeet(r, stored[i], ys);
  }

  lemma FirstDatesMeet(r: Row, e: Event, ys: seq<Event>)
    requires WellFormedRow(r) && DatesInOrder(r) && ReadBack(r, e)
    ensures NewRow(e).first == Ms(DateOf(r.at)) && RowKey(NewRow(e)) == RowKey(r)
    ensures DateValue(Earliest(Ms(DateOf(r.at)), ys, RowKey(r))) == DateValue(Earliest(r.first, ys, RowKey(r))) <==>
              r.at.Some? && (r.firstAt == r.at
                             || (r.firstAt.Some? && exists n: nat ::
                                   n < |ys| && DatedBy(ys, n, RowKey(r), r.firstAt.value)))
  {
    DatedStaysDated(DateOf(r.at), ys, RowKey(r));
    if r.at.None? {
      UndatedStaysUndated(ys, RowKey(r));
    } else if r.first.ms < r.last.ms {
      LevelledExactlyWhen(r.first.ms, r.last.ms, ys, RowKey(r));
    }
  }

  function DatedEvent(at: int): Event {
    Event([], map[], Ms(at), None, None, NoAddress)
  }

  /** Two dates are enough: the first date of their row is lost when the row is folded again. */
  lemma FirstAtIsLost(stored: seq<Event>)
    requires AllReadBack(FoldAll([], [DatedEvent(1), DatedEvent(2)]), stored)
    ensures FoldAll([], [DatedEvent(1), DatedEvent(2)])[0].firstAt == Some(1)
    ensures |FoldAll([], stored)| == 1 && FoldAll([], stored)[0].firstAt == Some(2)
  {
    var xs := [DatedEvent(1), DatedEvent(2)];
    TwoFoldToOne(DatedEvent(1), DatedEvent(2));
    RowsInFirstEncounterOrder(xs);
    RefoldedRow(FoldAll([], xs), stored, 1, 0);
    assert stored[..1] == stored;
  }

  lemma TwoFoldToOne(e: Event, f: Event)
    requires e.identity == f.identity
    ensures FoldAll([], [e, f]) == [MergeRow(NewRow(e), f)]
  {
    hide AddActors;
    assert [e, f][..1] == [e] && [e][..0] == [];
    FoldOneAppends([], e);
    assert FoldAll([], [e]) == [NewRow(e)];
    var rows := [NewRow(e)];
    assert KeysOf(rows)[0] == RowKey(rows[0]) == Key(f);
    assert FoldAll([], [e, f]) == FoldOne(rows, f);
  }
}
