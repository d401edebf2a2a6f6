/**
 What each row of a fold says, in terms of the documents folded: its dates, its latest fields, and
 its table of actors, for every sequence of documents.
 */
module FoldingMeaning {
  import opened Optional
  import opened Folding
  import opened FoldingLaws

  /** Document n is the first with its key. */
  ghost predicate Begins(docs: seq<Event>, n: nat) {
    n < |docs| && forall m | 0 <= m < n :: Key(docs[m]) != Key(docs[n])
  }

  lemma BeginsExtends(docs: seq<Event>, e: Event, n: nat)
    requires n < |docs|
    ensures Begins(docs + [e], n) <==> Begins(docs, n)
  {
    assert forall m | 0 <= m < |docs| :: (docs + [e])[m] == docs[m];
  }

  // ---- dates ----

  /** A row's dates are missing exactly when its first document has none. */
  ghost predicate BegunBy(docs: seq<Event>, r: Row, f: nat) {
    Begins(docs, f) && Key(docs[f]) == RowKey(r) && (docs[f].at.Ms? <==> r.last.Ms?)
  }

  lemma {:induction false} RowIsBegun(docs: seq<Event>, i: nat) returns (f: nat)
    requires i < |FoldAll([], docs)|
    ensures BegunBy(docs, FoldAll([], docs)[i], f)
    decreases |docs|
  {
    hide WellFormedRow, FoldOne, MergeRow, NewRow;
    var most, e := docs[..|docs| - 1], docs[|docs| - 1];
    var rows := FoldAll([], most);
    assert docs == most + [e];
    RowsInFirstEncounterOrder(most);
    if i < |rows| {
      f := RowIsBegun(most, i);
      FoldOneAt(rows, e, i);
      BeginsExtends(most, e, f);
      MergeKeepsBeginning(rows[i], e);
    } else {
      f := |most|;
      LastIsNew(rows, e, i);
      NothingDated(most, Key(e));
      NewRowDates(e);
    }
  }

  lemma MergeKeepsBeginning(r: Row, e: Event)
    ensures RowKey(MergeRow(r, e)) == RowKey(r) && (MergeRow(r, e).last.Ms? <==> r.last.Ms?)
  {
    hide AddActors;
  }

  lemma NewRowDates(e: Event)
    ensures RowKey(NewRow(e)) == Key(e) && NewRow(e).last == e.at && NewRow(e).latest == e.latest
  {
    hide AddActors;
  }

  /** firstAt and at of a row are the least and the greatest date of its documents, and missing exactly when
      the date of its first document is none. */
  lemma RowDatesAre(docs: seq<Event>, i: nat)
    requires i < |FoldAll([], docs)|
    ensures var r := FoldAll([], docs)[i];
            && (exists f: nat ::
                  Begins(docs, f) && Key(docs[f]) == RowKey(r) && (docs[f].at.Ms? <==> r.firstAt.Some?))
            && (r.firstAt.Some? <==> r.at.Some?)
            && (r.at.Some? ==>
                  && (exists n :: 0 <= n < |docs| && Key(docs[n]) == RowKey(r) && docs[n].at == Ms(r.firstAt.value))
                  && (exists n :: 0 <= n < |docs| && Key(docs[n]) == RowKey(r) && docs[n].at == Ms(r.at.value))
                  && forall n | 0 <= n < |docs| && Key(docs[n]) == RowKey(r) && docs[n].at.Ms? ::
                       r.firstAt.value <= docs[n].at.ms <= r.at.value)
  {
    var f := RowIsBegun(docs, i);
    RowDatesSpanDocuments(docs, i);
    RowsInFirstEncounterOrder(docs);
    hide FoldAll;
    var r := FoldAll([], docs)[i];
    assert WellFormedRow(r) && Begins(docs, f);
  }

  // ---- latest fields ----

  /** Document n starts its row, or is dated and not earlier than any document of its key before it, in a row
      that has a date from its start. */
  ghost predicate Leads(docs: seq<Event>, n: nat)
    requires n < |docs|
  {
    || Begins(docs, n)
    || (&& docs[n].at.Ms?
        && (exists f :: 0 <= f < n && Begins(docs, f) && Key(docs[f]) == Key(docs[n]) && docs[f].at.Ms?)
        && forall m | 0 <= m < n && Key(docs[m]) == Key(docs[n]) && docs[m].at.Ms? :: docs[m].at.ms <= docs[n].at.ms)
  }

  /** Document n gives the field `name` to the row of key k. */
  ghost predicate Gives(docs: seq<Event>, n: nat, k: string, name: string) {
    n < |docs| && Key(docs[n]) == k && Leads(docs, n) && name in docs[n].latest
  }

  lemma LeadsExtends(docs: seq<Event>, e: Event, n: nat)
    requires n < |docs|
    ensures Leads(docs + [e], n) <==> Leads(docs, n)
  {
    assert forall m | 0 <= m < |docs| :: (docs + [e])[m] == docs[m];
    forall m: nat | m < |docs| ensures Begins(docs + [e], m) <==> Begins(docs, m) { BeginsExtends(docs, e, m); }
    hide Begins;
  }

  lemma GivesExtends(docs: seq<Event>, e: Event, k: string, name: string)
    ensures forall n: nat | n < |docs| :: Gives(docs + [e], n, k, name) <==> Gives(docs, n, k, name)
    ensures Gives(docs + [e], |docs|, k, name) <==> Key(e) == k && Leads(docs + [e], |docs|) && name in e.latest
  {
    forall n: nat | n < |docs| ensures Gives(docs + [e], n, k, name) <==> Gives(docs, n, k, name) {
      LeadsExtends(docs, e, n);
      assert (docs + [e])[n] == docs[n];
    }
    hide Leads;
  }

  /** A further document of a row leads exactly when it is not earlier than the row's last date. */
  lemma LeadsWhenNotEarlier(docs: seq<Event>, e: Event, r: Row, f: nat)
    requires BegunBy(docs, r, f) && Spans(docs, r) && (r.first.Ms? <==> r.last.Ms?) && Key(e) == RowKey(r)
    ensures Leads(docs + [e], |docs|) <==> e.at.Ms? && r.last.Ms? && e.at.ms >= r.last.ms
  {
    var all, k := docs + [e], RowKey(r);
    assert forall m | 0 <= m < |docs| :: all[m] == docs[m];
    assert all[f] == docs[f] && !Begins(all, |docs|);
    BeginsExtends(docs, e, f);
    if r.last.Ms? {
      var n :| 0 <= n < |docs| && Key(docs[n]) == k && docs[n].at == r.last;
      assert Key(all[n]) == k && all[n].at == r.last;
    } else {
      forall g | 0 <= g < |docs| && Begins(all, g) && Key(all[g]) == k ensures g == f {
        assert all[g] == docs[g];
      }
    }
  }

  /** The row's value of a field is that of the last document that gives it, and missing without one. */
  ghost predicate FieldIs(docs: seq<Event>, r: Row, name: string) {
    && (name in r.latest <==> exists n: nat :: Gives(docs, n, RowKey(r), name))
    && forall n: nat | Gives(docs, n, RowKey(r), name) && forall m: nat | n < m :: !Gives(docs, m, RowKey(r), name) ::
         name in r.latest && r.latest[name] == docs[n].latest[name]
  }

  lemma {:induction false} LatestFieldsAre(docs: seq<Event>, i: nat, name: string)
    requires i < |FoldAll([], docs)|
    ensures FieldIs(docs, FoldAll([], docs)[i], name)
    decreases |docs|
  {
    hide WellFormedRow, FoldOne, MergeRow, NewRow, FieldIs, Spans, Begins;
    var most, e := docs[..|docs| - 1], docs[|docs| - 1];
    var rows := FoldAll([], most);
    assert docs == most + [e];
    RowsInFirstEncounterOrder(most);
    if i < |rows| {
      LatestFieldsAre(most, i, name);
      FoldOneAt(rows, e, i);
      if Key(e) == RowKey(rows[i]) {
        var f := RowIsBegun(most, i);
        RowDatesSpanDocuments(most, i);
        MergeKeepsFields(most, e, rows[i], f, name);
      } else {
        OthersKeepFields(most, e, rows[i], name);
      }
    } else {
      LastIsNew(rows, e, i);
      NewRowFields(most, e, name);
    }
  }

  lemma MergedLatest(r: Row, e: Event)
    ensures RowKey(MergeRow(r, e)) == RowKey(r)
    ensures MergeRow(r, e).latest ==
            if e.at.Ms? && r.last.Ms? && e.at.ms >= r.last.ms then r.latest + e.latest else r.latest
  {
    hide AddActors;
  }

  lemma MergeKeepsFields(docs: seq<Event>, e: Event, r: Row, f: nat, name: string)
    requires FieldIs(docs, r, name) && BegunBy(docs, r, f) && Spans(docs, r) && WellFormedRow(r) && Key(e) == RowKey(r)
    ensures FieldIs(docs + [e], MergeRow(r, e), name)
  {
    LeadsWhenNotEarlier(docs, e, r, f);
    MergedLatest(r, e);
    hide MergeRow, Spans, Begins, Leads, WellFormedRow;
    FieldsStep(docs, e, r, MergeRow(r, e), name);
  }

  /** A row that takes over the fields of a document exactly when that leads. */
  lemma FieldsStep(docs: seq<Event>, e: Event, r: Row, r': Row, name: string)
    requires FieldIs(docs, r, name) && RowKey(r') == RowKey(r)
    requires r'.latest == if Key(e) == RowKey(r) && Leads(docs + [e], |docs|) then r.latest + e.latest else r.latest
    ensures FieldIs(docs + [e], r', name)
  {
    var all, k := docs + [e], RowKey(r);
    GivesExtends(docs, e, k, name);
    hide Leads, Gives;
    assert forall n: nat :: Gives(all, n, k, name) ==> n <= |docs| by { GivesWithin(all, k, name); }
    assert forall n: nat :: Gives(docs, n, k, name) ==> n < |docs| by { GivesWithin(docs, k, name); }
    assert forall m | 0 <= m < |docs| :: all[m] == docs[m];
    assert all[|docs|] == e;
    hide Key, RowKey;
    if Gives(all, |docs|, k, name) {
      assert r'.latest == r.latest + e.latest && r'.latest[name] == e.latest[name];
    } else {
      assert name in r'.latest <==> name in r.latest;
      assert name in r.latest ==> r'.latest[name] == r.latest[name];
    }
  }

  lemma GivesWithin(docs: seq<Event>, k: string, name: string)
    ensures forall n: nat :: Gives(docs, n, k, name) ==> n < |docs|
  {}

  lemma OthersKeepFields(docs: seq<Event>, e: Event, r: Row, name: string)
    requires FieldIs(docs, r, name) && Key(e) != RowKey(r)
    ensures FieldIs(docs + [e], r, name)
  {
    hide FieldIs, Leads;
    FieldsStep(docs, e, r, r, name);
  }

  lemma NewRowFields(docs: seq<Event>, e: Event, name: string)
    requires Key(e) !in FirstOccurrences(docs)
    ensures FieldIs(docs + [e], NewRow(e), name)
  {
    NothingDated(docs, Key(e));
    NewRowDates(e);
    var all := docs + [e];
    assert forall m | 0 <= m < |docs| :: all[m] == docs[m];
    assert all[|docs|] == e && Begins(all, |docs|) && Leads(all, |docs|);
    hide NewRow, Leads, Begins;
    assert Gives(all, |docs|, Key(e), name) <==> name in e.latest;
    forall n: nat | Gives(all, n, Key(e), name) ensures n == |docs| {}
  }

  // ---- actors ----

  /** The actors a document mentions: those of its stored table, otherwise the ones it has itself. */
  function EntriesOf(e: Event): seq<Entry> {
    if e.stored.Some? then e.stored.value.entries else ActorsOf(e)
  }

  function EntriesUnder(docs: seq<Event>, k: string): seq<Entry>
    decreases |docs|
  {
    if docs == [] then []
    else
      var e := docs[|docs| - 1];
      EntriesUnder(docs[..|docs| - 1], k) + if Key(e) == k then EntriesOf(e) else []
  }

  /** What stored tables of key k say they could not hold. */
  function StoredOverflow(docs: seq<Event>, k: string): real
    decreases |docs|
  {
    if docs == [] then 0.0
    else
      var e := docs[|docs| - 1];
      StoredOverflow(docs[..|docs| - 1], k)
      + if Key(e) == k && e.stored.Some? then e.stored.value.overflow else 0.0
  }

  /** The distinct actors in order of first mention. */
  function Mentioned(entries: seq<Entry>): seq<string>
    decreases |entries|
  {
    if entries == [] then []
    else
      var earlier, k := Mentioned(entries[..|entries| - 1]), entries[|entries| - 1].key;
      if k in earlier then earlier else earlier + [k]
  }

  function Holders(entries: seq<Entry>): seq<string> {
    var all := Mentioned(entries);
    if |all| <= 50 then all else all[..50]
  }

  function CountOf(entries: seq<Entry>, k: string): real
    decreases |entries|
  {
    if entries == [] then 0.0
    else
      var e := entries[|entries| - 1];
      CountOf(entries[..|entries| - 1], k) + if e.key == k then e.tally.count else 0.0
  }

  function CountOutside(entries: seq<Entry>, keys: set<string>): real
    decreases |entries|
  {
    if entries == [] then 0.0
    else
      var e := entries[|entries| - 1];
      CountOutside(entries[..|entries| - 1], keys) + if e.key in keys then 0.0 else e.tally.count
  }

  ghost predicate IntroducedBy(entries: seq<Entry>, k: string, info: string) {
    exists n :: 0 <= n < |entries| && entries[n].key == k && entries[n].tally.info == info
                && forall m | 0 <= m < n :: entries[m].key != k
  }

  /** The first fifty actors have a tally each, that counts all their mentions; the others are overflow. */
  ghost predicate Tallied(t: Table, entries: seq<Entry>, extra: real) {
    Held(t, entries) && Counted(t, entries) && t.overflow == extra + CountOutside(entries, t.actors.Keys)
  }

  ghost predicate Held(t: Table, entries: seq<Entry>) {
    |t.actors| == |Holders(entries)| && forall k :: k in t.actors <==> k in Holders(entries)
  }

  ghost predicate Counted(t: Table, entries: seq<Entry>) {
    forall k | k in t.actors ::
      t.actors[k].count == CountOf(entries, k) && IntroducedBy(entries, k, t.actors[k].info)
  }

  /** What one more mention does, stored or derived, whatever it does to the tally's date. */
  ghost predicate Joined(t: Table, e: Entry, t': Table) {
    if e.key in t.actors then
      && e.key in t'.actors
      && t' == t.(actors := t.actors[e.key := t'.actors[e.key]])
      && t'.actors[e.key].count == t.actors[e.key].count + e.tally.count
      && t'.actors[e.key].info == t.actors[e.key].info
      && t'.actors[e.key].at in {t.actors[e.key].at, e.tally.at}
    else if |t.actors| < 50 then t' == t.(actors := t.actors[e.key := e.tally])
    else t' == t.(overflow := t.overflow + e.tally.count)
  }

  lemma BothJoin(t: Table, e: Entry)
    ensures Joined(t, e, AddStored(t, e)) && Joined(t, e, AddDerived(t, e))
  {}

  lemma {:induction false} CountOutsideWithout(entries: seq<Entry>, keys: set<string>, k: string)
    requires k !in Mentioned(entries)
    ensures CountOutside(entries, keys + {k}) == CountOutside(entries, keys) && CountOf(entries, k) == 0.0
    ensures forall m | 0 <= m < |entries| :: entries[m].key != k
    decreases |entries|
  {
    if entries != [] {
      CountOutsideWithout(entries[..|entries| - 1], keys, k);
      forall m | 0 <= m < |entries| ensures entries[m].key != k {
        if m < |entries| - 1 { assert entries[..|entries| - 1][m] == entries[m]; }
      }
    }
  }

  lemma OneMoreMention(entries: seq<Entry>, e: Entry, keys: set<string>, k: string)
    ensures Mentioned(entries + [e]) == Mentioned(entries) + if e.key in Mentioned(entries) then [] else [e.key]
    ensures CountOf(entries + [e], k) == CountOf(entries, k) + if e.key == k then e.tally.count else 0.0
    ensures CountOutside(entries + [e], keys)
            == CountOutside(entries, keys) + if e.key in keys then 0.0 else e.tally.count
  {
    assert (entries + [e])[..|entries|] == entries;
  }

  lemma IntroductionStays(entries: seq<Entry>, e: Entry, k: string, info: string)
    ensures IntroducedBy(entries, k, info) ==> IntroducedBy(entries + [e], k, info)
    ensures k !in Mentioned(entries) && e.key == k ==> IntroducedBy(entries + [e], k, e.tally.info)
  {
    var all := entries + [e];
    assert forall m | 0 <= m < |entries| :: all[m] == entries[m];
    if IntroducedBy(entries, k, info) {
      var n :| 0 <= n < |entries| && entries[n].key == k && entries[n].tally.info == info
        && forall m | 0 <= m < n :: entries[m].key != k;
      assert all[n].key == k;
    }
    if k !in Mentioned(entries) && e.key == k {
      CountOutsideWithout(entries, {}, k);
      assert all[|entries|].key == k;
    }
  }

  lemma HoldersStep(entries: seq<Entry>, e: Entry, t: Table)
    requires Held(t, entries)
    ensures if e.key in t.actors || |t.actors| >= 50 then Holders(entries + [e]) == Holders(entries)
            else e.key !in Mentioned(entries) && Holders(entries + [e]) == Holders(entries) + [e.key]
  {
    OneMoreMention(entries, e, {}, e.key);
    var all := Mentioned(entries);
    if |all| > 50 {
      assert (all + [e.key])[..50] == all[..50];
    }
  }

  lemma HeldStep(entries: seq<Entry>, e: Entry, t: Table, t': Table)
    requires Held(t, entries) && Joined(t, e, t')
    ensures Held(t', entries + [e])
    ensures t'.actors.Keys == t.actors.Keys + if e.key !in t.actors && |t.actors| < 50 then {e.key} else {}
  {
    HoldersStep(entries, e, t);
    hide Holders;
    assert |t.actors.Keys| == |t.actors| && |t'.actors.Keys| == |t'.actors|;
  }

  lemma CountedStep(entries: seq<Entry>, e: Entry, t: Table, t': Table, k: string)
    requires Held(t, entries) && Counted(t, entries) && Joined(t, e, t') && k in t'.actors
    ensures t'.actors[k].count == CountOf(entries + [e], k) && IntroducedBy(entries + [e], k, t'.actors[k].info)
  {
    OneMoreMention(entries, e, {}, k);
    IntroductionStays(entries, e, k, if k in t.actors then t.actors[k].info else "");
    if k !in t.actors {
      HoldersStep(entries, e, t);
      CountOutsideWithout(entries, {}, k);
    }
    hide Holders, IntroducedBy, CountOf, Held;
  }

  lemma OverflowStep(entries: seq<Entry>, extra: real, e: Entry, t: Table, t': Table)
    requires Held(t, entries) && Joined(t, e, t') && t.overflow == extra + CountOutside(entries, t.actors.Keys)
    ensures t'.overflow == extra + CountOutside(entries + [e], t'.actors.Keys)
  {
    HeldStep(entries, e, t, t');
    OneMoreMention(entries, e, t'.actors.Keys, e.key);
    if e.key !in t.actors && |t.actors| < 50 {
      HoldersStep(entries, e, t);
      CountOutsideWithout(entries, t.actors.Keys, e.key);
    }
    hide Holders, CountOutside, Held;
  }

  lemma TalliedStep(entries: seq<Entry>, extra: real, e: Entry, t: Table, t': Table)
    requires Tallied(t, entries, extra) && Joined(t, e, t')
    ensures Tallied(t', entries + [e], extra)
  {
    HeldStep(entries, e, t, t');
    OverflowStep(entries, extra, e, t, t');
    hide Held, Joined, CountOutside, CountOf, IntroducedBy;
    forall k | k in t'.actors
      ensures t'.actors[k].count == CountOf(entries + [e], k) && IntroducedBy(entries + [e], k, t'.actors[k].info)
    {
      CountedStep(entries, e, t, t', k);
    }
  }

  lemma {:induction false} StoredTallied(t: Table, entries: seq<Entry>, extra: real, more: seq<Entry>)
    requires Tallied(t, entries, extra)
    ensures Tallied(AddAllStored(t, more), entries + more, extra)
    decreases |more|
  {
    hide Tallied, Joined, AddStored;
    if more == [] {
      assert entries + more == entries;
    } else {
      var most, e := more[..|more| - 1], more[|more| - 1];
      StoredTallied(t, entries, extra, most);
      BothJoin(AddAllStored(t, most), e);
      TalliedStep(entries + most, extra, e, AddAllStored(t, most), AddAllStored(t, more));
      assert entries + most + [e] == entries + more;
    }
  }

  lemma {:induction false} DerivedTallied(t: Table, entries: seq<Entry>, extra: real, more: seq<Entry>)
    requires Tallied(t, entries, extra)
    ensures Tallied(AddAllDerived(t, more), entries + more, extra)
    decreases |more|
  {
    hide Tallied, Joined, AddDerived;
    if more == [] {
      assert entries + more == entries;
    } else {
      var most, e := more[..|more| - 1], more[|more| - 1];
      DerivedTallied(t, entries, extra, most);
      BothJoin(AddAllDerived(t, most), e);
      TalliedStep(entries + most, extra, e, AddAllDerived(t, most), AddAllDerived(t, more));
      assert entries + most + [e] == entries + more;
    }
  }

  lemma MoreOverflow(t: Table, entries: seq<Entry>, extra: real, more: real)
    requires Tallied(t, entries, extra)
    ensures Tallied(t.(overflow := t.overflow + more), entries, extra + more)
  {
    hide Holders, CountOf, CountOutside, IntroducedBy;
  }

  lemma ActorsTallied(t: Table, entries: seq<Entry>, extra: real, e: Event)
    requires Tallied(t, entries, extra)
    ensures Tallied(AddActors(t, e), entries + EntriesOf(e),
                    extra + if e.stored.Some? then e.stored.value.overflow else 0.0)
  {
    if e.stored.Some? {
      StoredTallied(t, entries, extra, e.stored.value.entries);
      var stored := e.stored.value;
      MoreOverflow(AddAllStored(t, stored.entries), entries + stored.entries, extra, stored.overflow);
      hide AddAllStored, Tallied;
    } else {
      hide Tallied;
      DerivedTallied(t, entries, extra, ActorsOf(e));
    }
  }

  lemma UnderNext(docs: seq<Event>, e: Event, k: string)
    ensures EntriesUnder(docs + [e], k) == EntriesUnder(docs, k) + if Key(e) == k then EntriesOf(e) else []
    ensures StoredOverflow(docs + [e], k)
            == StoredOverflow(docs, k) + if Key(e) == k && e.stored.Some? then e.stored.value.overflow else 0.0
  {
    assert (docs + [e])[..|docs|] == docs;
  }

  lemma {:induction false} NothingUnder(docs: seq<Event>, k: string)
    requires k !in FirstOccurrences(docs)
    ensures EntriesUnder(docs, k) == [] && StoredOverflow(docs, k) == 0.0
    decreases |docs|
  {
    if docs != [] { NothingUnder(docs[..|docs| - 1], k); }
  }

  lemma TableOf(e: Event, r: Row)
    ensures NewRow(e).table == AddActors(Table(map[], 0.0), e) && RowKey(NewRow(e)) == Key(e)
    ensures MergeRow(r, e).table == AddActors(r.table, e) && RowKey(MergeRow(r, e)) == RowKey(r)
  {
    hide AddActors;
  }

  /** Every row tallies all mentions of its actors in its documents. */
  lemma {:induction false} ActorsAreTallied(docs: seq<Event>, i: nat)
    requires i < |FoldAll([], docs)|
    ensures var r := FoldAll([], docs)[i];
            Tallied(r.table, EntriesUnder(docs, RowKey(r)), StoredOverflow(docs, RowKey(r)))
    decreases |docs|
  {
    hide WellFormedRow, FoldOne, MergeRow, NewRow, Tallied, EntriesOf, AddActors;
    var most, e := docs[..|docs| - 1], docs[|docs| - 1];
    var rows := FoldAll([], most);
    assert docs == most + [e];
    RowsInFirstEncounterOrder(most);
    if i < |rows| {
      ActorsAreTallied(most, i);
      FoldOneAt(rows, e, i);
      var r := rows[i];
      var k := RowKey(r);
      TableOf(e, r);
      UnderNext(most, e, k);
      if Key(e) == k {
        ActorsTallied(r.table, EntriesUnder(most, k), StoredOverflow(most, k), e);
      } else {
        assert EntriesUnder(most, k) + [] == EntriesUnder(most, k);
      }
    } else {
      LastIsNew(rows, e, i);
      TableOf(e, NewRow(e));
      NothingUnder(most, Key(e));
      UnderNext(most, e, Key(e));
      EmptyIsTallied();
      ActorsTallied(Table(map[], 0.0), [], 0.0, e);
    }
  }

  lemma EmptyIsTallied()
    ensures Tallied(Table(map[], 0.0), [], 0.0)
  {}

  // ---- the dates of tallies ----

  /** Dates after the start of 1970, for which the fold takes a tally without a date. */
  ghost predicate AfterEpoch(entries: seq<Entry>) {
    forall n | 0 <= n < |entries| && entries[n].tally.at.Some? :: entries[n].tally.at.value > 0
  }

  ghost predicate LastDate(entries: seq<Entry>, k: string, at: Option<int>) {
    && (forall n | 0 <= n < |entries| && entries[n].key == k && entries[n].tally.at.Some? ::
          at.Some? && entries[n].tally.at.value <= at.value)
    && (at.Some? ==> exists n :: 0 <= n < |entries| && entries[n].key == k && entries[n].tally.at == at)
  }

  /** Every tally is dated by the latest mention of its actor, if any is dated. */
  ghost predicate Latest(t: Table, entries: seq<Entry>) {
    forall k | k in t.actors :: LastDate(entries, k, t.actors[k].at)
  }

  function Later(a: Option<int>, b: Option<int>): Option<int> {
    if b.Some? && (a.None? || b.value > a.value) then b else a
  }

  lemma BothDate(t: Table, e: Entry)
    requires e.key in t.actors
    requires (e.tally.at.Some? ==> e.tally.at.value > 0) && (t.actors[e.key].at.Some? ==> t.actors[e.key].at.value > 0)
    ensures AddStored(t, e).actors[e.key].at == AddDerived(t, e).actors[e.key].at
                                             == Later(t.actors[e.key].at, e.tally.at)
  {}

  lemma LastDateStep(entries: seq<Entry>, e: Entry, k: string, at: Option<int>)
    requires LastDate(entries, k, at)
    ensures LastDate(entries + [e], k, if e.key == k then Later(at, e.tally.at) else at)
  {
    var all := entries + [e];
    assert all[|entries|] == e;
    assert forall m | 0 <= m < |entries| :: all[m] == entries[m];
  }

  lemma NotMentionedIsUndated(entries: seq<Entry>, k: string)
    requires k !in Mentioned(entries)
    ensures LastDate(entries, k, None)
  {
    CountOutsideWithout(entries, {}, k);
  }

  lemma LastDateIsAfterEpoch(entries: seq<Entry>, k: string, at: Option<int>)
    requires AfterEpoch(entries) && LastDate(entries, k, at)
    ensures at.Some? ==> at.value > 0
  {}

  lemma LatestStep(entries: seq<Entry>, e: Entry, t: Table, t': Table)
    requires Held(t, entries) && Latest(t, entries) && Joined(t, e, t')
    requires e.key in t.actors ==> t'.actors[e.key].at == Later(t.actors[e.key].at, e.tally.at)
    ensures Latest(t', entries + [e])
  {
    HoldersStep(entries, e, t);
    forall k | k in t'.actors ensures LastDate(entries + [e], k, t'.actors[k].at) {
      if k !in t.actors { NotMentionedIsUndated(entries, k); }
      LastDateStep(entries, e, k, if k in t.actors then t.actors[k].at else None);
    }
  }

  lemma BothLatest(t: Table, entries: seq<Entry>, e: Entry)
    requires Held(t, entries) && Latest(t, entries) && AfterEpoch(entries + [e])
    ensures Latest(AddStored(t, e), entries + [e]) && Held(AddStored(t, e), entries + [e])
    ensures Latest(AddDerived(t, e), entries + [e]) && Held(AddDerived(t, e), entries + [e])
  {
    BothJoin(t, e);
    assert (entries + [e])[|entries|] == e;
    assert AfterEpoch(entries) by { assert forall n | 0 <= n < |entries| :: (entries + [e])[n] == entries[n]; }
    if e.key in t.actors {
      LastDateIsAfterEpoch(entries, e.key, t.actors[e.key].at);
      BothDate(t, e);
    }
    hide AddStored, AddDerived, AfterEpoch, Later;
    HeldStep(entries, e, t, AddStored(t, e));
    HeldStep(entries, e, t, AddDerived(t, e));
    hide Joined;
    LatestStep(entries, e, t, AddStored(t, e));
    LatestStep(entries, e, t, AddDerived(t, e));
  }

  lemma AfterEpochPrefix(a: seq<Entry>, b: seq<Entry>)
    requires AfterEpoch(a + b)
    ensures AfterEpoch(a)
  {
    assert forall n | 0 <= n < |a| :: (a + b)[n] == a[n];
  }

  lemma {:induction false} AllLatest(t: Table, entries: seq<Entry>, more: seq<Entry>)
    requires Held(t, entries) && Latest(t, entries) && AfterEpoch(entries + more)
    ensures Latest(AddAllStored(t, more), entries + more) && Held(AddAllStored(t, more), entries + more)
    ensures Latest(AddAllDerived(t, more), entries + more) && Held(AddAllDerived(t, more), entries + more)
    decreases |more|
  {
    hide Held, Latest, AddStored, AddDerived, AfterEpoch;
    if more == [] {
      assert entries + more == entries;
    } else {
      var most, e := more[..|more| - 1], more[|more| - 1];
      assert (entries + most) + [e] == entries + more;
      AfterEpochPrefix(entries + most, [e]);
      AllLatest(t, entries, most);
      BothLatest(AddAllStored(t, most), entries + most, e);
      BothLatest(AddAllDerived(t, most), entries + most, e);
    }
  }

  lemma ActorsLatest(t: Table, entries: seq<Entry>, e: Event)
    requires Held(t, entries) && Latest(t, entries) && AfterEpoch(entries + EntriesOf(e))
    ensures Latest(AddActors(t, e), entries + EntriesOf(e)) && Held(AddActors(t, e), entries + EntriesOf(e))
  {
    AllLatest(t, entries, EntriesOf(e));
    hide AddAllStored, AddAllDerived, AfterEpoch, Holders, LastDate, ActorsOf;
  }

  /** With dates after the start of 1970 every tally of a row carries the latest date of its actor's mentions. */
  lemma {:induction false} TallyDatesAre(docs: seq<Event>, i: nat)
    requires i < |FoldAll([], docs)| && AfterEpoch(EntriesUnder(docs, RowKey(FoldAll([], docs)[i])))
    ensures var r := FoldAll([], docs)[i];
            Latest(r.table, EntriesUnder(docs, RowKey(r))) && Held(r.table, EntriesUnder(docs, RowKey(r)))
    decreases |docs|
  {
    hide WellFormedRow, FoldOne, MergeRow, NewRow, Latest, Held, AfterEpoch, EntriesOf, AddActors;
    var most, e := docs[..|docs| - 1], docs[|docs| - 1];
    var rows := FoldAll([], most);
    assert docs == most + [e];
    RowsInFirstEncounterOrder(most);
    if i < |rows| {
      FoldOneAt(rows, e, i);
      var r := rows[i];
      var k := RowKey(r);
      TableOf(e, r);
      UnderNext(most, e, k);
      AfterEpochPrefix(EntriesUnder(most, k), if Key(e) == k then EntriesOf(e) else []);
      TallyDatesAre(most, i);
      if Key(e) == k {
        ActorsLatest(r.table, EntriesUnder(most, k), e);
      } else {
        assert EntriesUnder(most, k) + [] == EntriesUnder(most, k);
      }
    } else {
      LastIsNew(rows, e, i);
      TableOf(e, NewRow(e));
      NothingUnder(most, Key(e));
      UnderNext(most, e, Key(e));
      EmptyIsLatest();
      ActorsLatest(Table(map[], 0.0), [], e);
    }
  }

  lemma EmptyIsLatest()
    ensures Latest(Table(map[], 0.0), []) && Held(Table(map[], 0.0), [])
  {}

  /** Where the date of the first event is none, the tally takes that of the second only when it is after the start
      of 1970. */
  lemma TallyTakesDateExactlyAfterEpoch(a: Event, b: Event)
    requires a.identity == b.identity && a.stored == b.stored == None && a.address == b.address == NoAddress
    requires a.latest == b.latest == map["username" := "ann"] && a.at == NotADate && b.at.Ms?
    ensures var rows := FoldAll([], [a, b]);
            |rows| == 1 && rows[0].table.actors.Keys == {"user:ann"}
            && rows[0].table.actors["user:ann"].at == if b.at.ms > 0 then Some(b.at.ms) else None
  {
    hide *;
    TwoFoldToOne(a, b);
    TableOfTwo(a, b);
    AnnTwice(a, b);
  }

  lemma TableOfTwo(a: Event, b: Event)
    ensures MergeRow(NewRow(a), b).table == AddActors(AddActors(Table(map[], 0.0), a), b)
  {
    hide AddActors;
  }

  lemma AnnTwice(a: Event, b: Event)
    requires a.stored == b.stored == None && a.address == b.address == NoAddress
    requires a.latest == b.latest == map["username" := "ann"] && a.at == NotADate && b.at.Ms?
    ensures var t := AddActors(AddActors(Table(map[], 0.0), a), b);
            t.actors.Keys == {"user:ann"} && t.actors["user:ann"].at == if b.at.ms > 0 then Some(b.at.ms) else None
  {
    KeysOfTwo();
    AnnOnly(Table(map[], 0.0), a);
    AnnOnly(AddActors(Table(map[], 0.0), a), b);
    hide AddActors, Weight;
  }

  lemma AnnOnly(t: Table, e: Event)
    requires e.stored == None && e.address == NoAddress && e.latest == map["username" := "ann"]
    ensures AddActors(t, e) == AddDerived(t, Entry("user" + ":" + "ann", Tally(Weight(e), DateValue(e.at), "ann")))
  {
    var entry := Entry("user" + ":" + "ann", Tally(Weight(e), DateValue(e.at), "ann"));
    hide AddDerived, Weight, DateValue;
    assert ActorsOf(e) == [entry];
    assert [entry][..0] == [];
    assert AddAllDerived(t, [entry]) == AddDerived(AddAllDerived(t, []), entry);
  }

  // ---- keys, weights and actors of one document ----

  predicate NoNul(parts: seq<Attr>) {
    forall i | 0 <= i < |parts| :: parts[i].Present? ==> '\0' !in parts[i].text
  }

  predicate ReadsSame(a: Attr, b: Attr) {
    a == b || (a in {Absent, Present("")} && b in {Absent, Present("")})
  }

  lemma SplitsAtNul(x: string, y: string, s: string, t: string)
    requires '\0' !in x && '\0' !in y && x + "\0" + s == y + "\0" + t
    ensures x == y && s == t
  {
    var u, v := x + "\0" + s, y + "\0" + t;
    assert u[|x|] == '\0' && v[|y|] == '\0';
    assert forall i | 0 <= i < |x| :: u[i] == x[i] && x[i] in x;
    assert forall i | 0 <= i < |y| :: v[i] == y[i] && y[i] in y;
    assert |x| == |y|;
    assert x == u[..|x|] && y == v[..|y|];
    assert s == u[|x| + 1..] && t == v[|y| + 1..];
  }

  /** Documents share a row exactly when their identity fields read the same, an absent field like an empty one,
      as long as no field holds the separator. */
  lemma {:induction false} KeysTellApart(a: seq<Attr>, b: seq<Attr>)
    requires |a| == |b| && NoNul(a) && NoNul(b)
    ensures Join(a) == Join(b) <==> forall i | 0 <= i < |a| :: ReadsSame(a[i], b[i])
    decreases |a|
  {
    if a != [] {
      assert Render(a[0]) == Render(b[0]) <==> ReadsSame(a[0], b[0]);
      if |a| > 1 {
        KeysTellApart(a[1..], b[1..]);
        assert (forall i | 0 <= i < |a[1..]| :: ReadsSame(a[1..][i], b[1..][i]))
          <==> forall i | 1 <= i < |a| :: ReadsSame(a[i], b[i])
          by { assert forall i | 1 <= i < |a| :: a[i] == a[1..][i - 1] && b[i] == b[1..][i - 1]; }
        if Join(a) == Join(b) { SplitsAtNul(Render(a[0]), Render(b[0]), Join(a[1..]), Join(b[1..])); }
      }
    }
  }

  /** A document counts for as much as it says when that is positive, and once otherwise. */
  lemma DocumentsCount(e: Event)
    ensures Weight(e) == if e.count.Some? && e.count.value > 0.0 then e.count.value else 1.0
    ensures Weight(e) > 0.0
  {}

  /** A worked fold: the user and the address of an event become actors, and the later event's fields win. */
  lemma TwoEventsFolded(a: Event, b: Event)
    requires a.latest == map["username" := "ann", "detail" := "x"] && a.at == Ms(5) && a.count == None
    requires b.latest == map["username" := "bob"] && b.at == Ms(9) && b.count == Some(3.0)
    requires a.identity == b.identity && a.stored == b.stored == None
    requires a.address == V4("10.0.0.1") && b.address == V6("::1")
    ensures FoldAll([], [a, b]) ==
            [Row(a.identity, map["username" := "bob", "detail" := "x"], 4.0, Some(5), Some(9),
                 Table(map["user:ann" := Tally(1.0, Some(5), "ann"), "ip:10.0.0.1" := Tally(1.0, Some(5), "10.0.0.1"),
                           "user:bob" := Tally(3.0, Some(9), "bob"), "ip:::1" := Tally(3.0, Some(9), "::1")], 0.0),
                 Ms(5), Ms(9))]
  {
    hide *;
    ActorsOfTwo(a, b);
    TwoFoldToOne(a, b);
    RowOfTwo(a, b);
    assert a.latest + b.latest == map["username" := "bob", "detail" := "x"];
  }

  lemma RowOfTwo(a: Event, b: Event)
    requires a.identity == b.identity && a.at == Ms(5) && b.at == Ms(9) && a.count == None && b.count == Some(3.0)
    ensures MergeRow(NewRow(a), b) ==
            Row(a.identity, a.latest + b.latest, 4.0, Some(5), Some(9),
                AddActors(AddActors(Table(map[], 0.0), a), b), Ms(5), Ms(9))
  {
    hide AddActors;
  }

  lemma KeysOfTwo()
    ensures "user" + ":" + "ann" == "user:ann" && "user" + ":" + "bob" == "user:bob"
    ensures "ip" + ":" + "10.0.0.1" == "ip:10.0.0.1" && "ip" + ":" + "::1" == "ip:::1"
  {}

  lemma ActorsOfOne(e: Event, user: string, address: string, times: real, at: Option<int>)
    requires "username" in e.latest && e.latest["username"] == user && user != ""
    requires e.address == V4(address) || e.address == V6(address)
    requires Weight(e) == times && DateValue(e.at) == at
    ensures ActorsOf(e) == [Entry("user" + ":" + user, Tally(times, at, user)),
                            Entry("ip" + ":" + address, Tally(times, at, address))]
  {
    hide Weight;
  }

  lemma ActorsOfTwo(a: Event, b: Event)
    requires a.latest == map["username" := "ann", "detail" := "x"] && a.at == Ms(5) && a.count == None
    requires a.address == V4("10.0.0.1") && a.stored == b.stored == None
    requires b.latest == map["username" := "bob"] && b.at == Ms(9) && b.count == Some(3.0) && b.address == V6("::1")
    ensures var one := AddActors(Table(map[], 0.0), a);
            && one == Table(map["user:ann" := Tally(1.0, Some(5), "ann"),
                                "ip:10.0.0.1" := Tally(1.0, Some(5), "10.0.0.1")], 0.0)
            && AddActors(one, b) ==
               Table(map["user:ann" := Tally(1.0, Some(5), "ann"), "ip:10.0.0.1" := Tally(1.0, Some(5), "10.0.0.1"),
                         "user:bob" := Tally(3.0, Some(9), "bob"), "ip:::1" := Tally(3.0, Some(9), "::1")], 0.0)
  {
    hide AddActors;
    KeysOfTwo();
    ActorsOfOne(a, "ann", "10.0.0.1", 1.0, Some(5));
    ActorsOfOne(b, "bob", "::1", 3.0, Some(9));
    TwoJoin(Table(map[], 0.0), a, Entry("user:ann", Tally(1.0, Some(5), "ann")),
            Entry("ip:10.0.0.1", Tally(1.0, Some(5), "10.0.0.1")));
    var one := AddActors(Table(map[], 0.0), a);
    TwoJoin(one, b, Entry("user:bob", Tally(3.0, Some(9), "bob")), Entry("ip:::1", Tally(3.0, Some(9), "::1")));
  }

  lemma TwoJoin(t: Table, e: Event, x: Entry, y: Entry)
    requires e.stored == None && ActorsOf(e) == [x, y]
    ensures AddActors(t, e) == AddDerived(AddDerived(t, x), y)
  {
    assert [x, y][..1] == [x] && [x][..0] == [];
    assert AddAllDerived(t, []) == t && AddAllDerived(t, [x]) == AddDerived(t, x);
  }

  // ---- documents and records as objects ----

  /** What a document is folded as: its own fields, and its stored tallies as they stand. */
  lemma DocumentReads(doc: Doc)
    ensures var e := Read(doc);
            && e.identity == doc.identity && e.latest == doc.latest && e.at == doc.at && e.count == doc.count
            && e.address == doc.address && (e.stored.Some? <==> doc.stored.Some?)
            && (doc.stored.Some? ==>
                  && e.stored.value.overflow == doc.stored.value.overflow
                  && |e.stored.value.entries| == |doc.stored.value.entries|
                  && forall i | 0 <= i < |doc.stored.value.entries| ::
                       var entry := doc.stored.value.entries[i];
                       e.stored.value.entries[i]
                       == Entry(entry.key, Tally(entry.cell.count, entry.cell.at, entry.cell.info)))
  {
    if doc.stored.Some? { EntriesRead(doc.stored.value.entries); }
  }

  lemma {:induction false} EntriesRead(entries: seq<CellEntry>)
    ensures |ReadEntries(entries)| == |entries|
    ensures forall i | 0 <= i < |entries| ::
              ReadEntries(entries)[i]
              == Entry(entries[i].key, Tally(entries[i].cell.count, entries[i].cell.at, entries[i].cell.info))
    decreases |entries|
  {
    if entries != [] { EntriesRead(entries[..|entries| - 1]); }
  }

  /** What a record is as a row: its own fields, and its tallies as they stand. */
  lemma RecordReads(r: Record)
    ensures var row := r.Value();
            && row.identity == r.identity && row.latest == r.latest && row.count == r.count
            && row.firstAt == r.firstAt && row.at == r.at && row.first == r.first && row.last == r.last
            && row.table.overflow == r.actorsOverflow && row.table.actors.Keys == r.actors.Keys
            && forall k | k in r.actors ::
                 row.table.actors[k] == Tally(r.actors[k].count, r.actors[k].at, r.actors[k].info)
  {}
}
