/**
 The event fold of internal/eventlog/summary.go: documents with one identity become one
 row with summed counts and a table of at most 50 actors. Counts are real numbers.
 */
module Folding {
  import opened Optional

  const MAX_ACTORS := 50

  /** An identity field as it renders in the key; an absent one renders as the empty string. */
  datatype Attr = Absent | Present(text: string)

  /** summaryDate: milliseconds, 0 for want of a date, or text that is no date. */
  datatype Stamp = NotADate | Ms(ms: int)

  /** ClassifyAddress of the document's ip. */
  datatype Address = NoAddress | V4(text: string) | V6(text: string)

  datatype Tally = Tally(count: real, at: Option<int>, info: string)
  datatype Entry = Entry(key: string, tally: Tally)
  datatype Stored = Stored(entries: seq<Entry>, overflow: real)

  /** A document to fold: an event, or a row that was folded and stored earlier. */
  datatype Event = Event(identity: seq<Attr>, latest: map<string, string>, at: Stamp, count: Option<real>,
                         stored: Option<Stored>, address: Address)

  datatype Table = Table(actors: map<string, Tally>, overflow: real)

  /** A row with the two numbers the fold keeps beside it. */
  datatype Row = Row(identity: seq<Attr>, latest: map<string, string>, count: real,
                     firstAt: Option<int>, at: Option<int>,
                     table: Table, first: Stamp, last: Stamp)

  // ---- keys and weights ----

  function Render(a: Attr): string {
    if a.Absent? then "" else a.text
  }

  function Join(parts: seq<Attr>): string {
    if parts == [] then "" else if |parts| == 1 then Render(parts[0]) else Render(parts[0]) + "\0" + Join(parts[1..])
  }

  function Key(e: Event): string { Join(e.identity) }
  function RowKey(r: Row): string { Join(r.identity) }

  function Weight(e: Event): real {
    if e.count.Some? && e.count.value > 0.0 then e.count.value else 1.0
  }

  function DateValue(s: Stamp): Option<int> {
    if s.Ms? then Some(s.ms) else None
  }

  function DateOf(o: Option<int>): int {
    if o.Some? then o.value else 0
  }

  // ---- actors ----

  /** ActorKeyFor before hashing; the hash is taken to be injective. */
  function ActorKey(kind: string, value: string): string {
    kind + ":" + value
  }

  /** ActorsOf: the user, then the address. */
  function ActorsOf(e: Event): seq<Entry> {
    (if "username" in e.latest && e.latest["username"] != ""
     then [Entry(ActorKey("user", e.latest["username"]),
                 Tally(Weight(e), DateValue(e.at), e.latest["username"]))]
     else [])
    + (match e.address
       case NoAddress => []
       case V4(v) => [Entry(ActorKey("ip", v), Tally(Weight(e), DateValue(e.at), v))]
       case V6(v) => [Entry(ActorKey("ip", v), Tally(Weight(e), DateValue(e.at), v))])
  }

  /** One stored tally joins the table: merged, added below the cap, or counted as overflow. */
  function AddStored(t: Table, e: Entry): Table {
    if e.key in t.actors then
      var known := t.actors[e.key];
      var at := if e.tally.at.Some? && (known.at == None || e.tally.at.value > known.at.value)
        then e.tally.at else known.at;
      t.(actors := t.actors[e.key := known.(count := known.count + e.tally.count, at := at)])
    else if |t.actors| < MAX_ACTORS then t.(actors := t.actors[e.key := e.tally])
    else t.(overflow := t.overflow + e.tally.count)
  }

  /** One derived actor joins the table. */
  function AddDerived(t: Table, e: Entry): Table {
    if e.key in t.actors then
      var known := t.actors[e.key];
      var at := if DateOf(e.tally.at) > DateOf(known.at) then e.tally.at else known.at;
      t.(actors := t.actors[e.key := known.(count := known.count + e.tally.count, at := at)])
    else if |t.actors| < MAX_ACTORS then t.(actors := t.actors[e.key := e.tally])
    else t.(overflow := t.overflow + e.tally.count)
  }

  function AddAllStored(t: Table, entries: seq<Entry>): Table
    decreases |entries|
  {
    if entries == [] then t else AddStored(AddAllStored(t, entries[..|entries| - 1]), entries[|entries| - 1])
  }

  function AddAllDerived(t: Table, entries: seq<Entry>): Table
    decreases |entries|
  {
    if entries == [] then t else AddDerived(AddAllDerived(t, entries[..|entries| - 1]), entries[|entries| - 1])
  }

  /** summaryAddActors: a stored tally table is merged, otherwise the actors are derived. */
  function AddActors(t: Table, e: Event): Table {
    if e.stored.Some? then
      var merged := AddAllStored(t, e.stored.value.entries);
      merged.(overflow := merged.overflow + e.stored.value.overflow)
    else AddAllDerived(t, ActorsOf(e))
  }

  // ---- rows ----

  function NewRow(e: Event): Row {
    Row(e.identity, e.latest, Weight(e), DateValue(e.at), DateValue(e.at), AddActors(Table(map[], 0.0), e), e.at, e.at)
  }

  predicate Earlier(a: Stamp, b: Stamp) { a.Ms? && b.Ms? && a.ms < b.ms }
  predicate NotEarlier(a: Stamp, b: Stamp) { a.Ms? && b.Ms? && a.ms >= b.ms }

  /** The row after taking over the date of a document, and with the latest date its latest fields. */
  function Redated(r: Row, e: Event): Row {
    var begun := if Earlier(e.at, r.first) then r.(first := e.at, firstAt := DateValue(e.at)) else r;
    if NotEarlier(e.at, r.last) then
      begun.(last := e.at, at := DateValue(e.at), latest := r.latest + e.latest)
    else begun
  }

  function MergeRow(r: Row, e: Event): Row {
    Redated(r.(table := AddActors(r.table, e), count := r.count + Weight(e)), e)
  }

  function KeysOf(rows: seq<Row>): seq<string> {
    seq(|rows|, i requires 0 <= i < |rows| => RowKey(rows[i]))
  }

  function IndexOf(keys: seq<string>, k: string): (i: nat)
    ensures i <= |keys| && (i < |keys| ==> keys[i] == k) && forall j | 0 <= j < i :: keys[j] != k
  {
    if keys == [] || keys[0] == k then 0 else 1 + IndexOf(keys[1..], k)
  }

  function FoldOne(rows: seq<Row>, e: Event): seq<Row> {
    var i := IndexOf(KeysOf(rows), Key(e));
    if i < |rows| then rows[i := MergeRow(rows[i], e)] else rows + [NewRow(e)]
  }

  function FoldAll(rows: seq<Row>, docs: seq<Event>): seq<Row>
    decreases |docs|
  {
    if docs == [] then rows else FoldOne(FoldAll(rows, docs[..|docs| - 1]), docs[|docs| - 1])
  }

  // ---- the code: documents hold tallies by reference, rows are records updated in place ----

  /** A tally object. */
  class Cell {
    var count: real
    var at: Option<int>
    var info: string

    constructor (tally: Tally)
      ensures Value() == tally
    {
      count, at, info := tally.count, tally.at, tally.info;
    }

    function Value(): Tally
      reads this
    {
      Tally(count, at, info)
    }
  }

  /** A document to fold whose stored tallies are objects of the caller. */
  datatype CellEntry = CellEntry(key: string, cell: Cell)
  datatype CellTable = CellTable(entries: seq<CellEntry>, overflow: real)
  datatype Doc = Doc(identity: seq<Attr>, latest: map<string, string>, at: Stamp, count: Option<real>,
                     stored: Option<CellTable>, address: Address)

  /** The tally objects of a document. */
  function CellsOf(doc: Doc): set<Cell> {
    if doc.stored.Some? then set e | e in doc.stored.value.entries :: e.cell else {}
  }

  function ReadEntries(entries: seq<CellEntry>): seq<Entry>
    reads set e | e in entries :: e.cell
    decreases |entries|
  {
    if entries == [] then []
    else
      var last := entries[|entries| - 1];
      ReadEntries(entries[..|entries| - 1]) + [Entry(last.key, last.cell.Value())]
  }

  /** What a document says at the moment. */
  function Read(doc: Doc): Event
    reads CellsOf(doc)
  {
    Event(doc.identity, doc.latest, doc.at, doc.count,
          if doc.stored.None? then None
          else Some(Stored(ReadEntries(doc.stored.value.entries), doc.stored.value.overflow)),
          doc.address)
  }

  /** The tally objects of all documents. */
  function InputCells(docs: seq<Doc>): set<Cell> {
    if docs == [] then {} else InputCells(docs[..|docs| - 1]) + CellsOf(docs[|docs| - 1])
  }

  function ReadAll(docs: seq<Doc>): seq<Event>
    reads InputCells(docs)
    decreases |docs|
  {
    if docs == [] then [] else ReadAll(docs[..|docs| - 1]) + [Read(docs[|docs| - 1])]
  }

  class Record {
    const identity: seq<Attr>
    var latest: map<string, string>
    var count: real
    var firstAt: Option<int>
    var at: Option<int>
    var actors: map<string, Cell>
    var actorsOverflow: real
    var first: Stamp
    var last: Stamp

    ghost function Cells(): set<Cell>
      reads this
    {
      set k | k in actors :: actors[k]
    }

    /** No two actors share a tally object. */
    ghost predicate Valid()
      reads this
    {
      forall j, k | j in actors && k in actors && j != k :: actors[j] != actors[k]
    }

    function Tallies(): Table
      reads this, set k | k in actors :: actors[k]
    {
      Table(map k | k in actors :: actors[k].Value(), actorsOverflow)
    }

    function Value(): Row
      reads this, set k | k in actors :: actors[k]
    {
      Row(identity, latest, count, firstAt, at, Tallies(), first, last)
    }

    constructor (doc: Doc)
      ensures Valid() && Cells() == {}
      ensures Value() == NewRow(Read(doc)).(table := Table(map[], 0.0))
    {
      identity, latest, count := doc.identity, doc.latest, Weight(Read(doc));
      firstAt, at, first, last := DateValue(doc.at), DateValue(doc.at), doc.at, doc.at;
      actors, actorsOverflow := map[], 0.0;
    }

    /** Counts further for an actor of the row, in place. */
    method CountAgain(key: string, times: real, when: Option<int>)
      requires Valid() && key in actors
      modifies actors[key]
      ensures var t := old(Tallies());
              Tallies()
              == t.(actors := t.actors[key := t.actors[key].(count := t.actors[key].count + times, at := when)])
    {
      ghost var before := Tallies();
      var existing := actors[key];
      existing.count := existing.count + times;
      existing.at := when;
      assert Tallies().actors == before.actors[key := existing.Value()];
    }

    /** Copies a tally into a new actor of the row. */
    method Admit(key: string, tally: Tally)
      requires Valid() && key !in actors
      modifies this`actors
      ensures Valid() && fresh(Cells() - old(Cells()))
      ensures Tallies() == old(Tallies()).(actors := old(Tallies()).actors[key := tally])
    {
      ghost var before := Tallies();
      var copied := new Cell(tally);
      actors := actors[key := copied];
      assert Tallies().actors == before.actors[key := tally];
    }

    lemma Sizes()
      ensures Tallies().actors.Keys == actors.Keys && |Tallies().actors| == |actors|
    {
      var t := Tallies().actors;
      assert t.Keys == actors.Keys && |t.Keys| == |t| && |actors.Keys| == |actors|;
    }

    /** The loop body over a stored tally table: an entry that is new to the row is copied. */
    method AddStoredActor(key: string, cell: Cell)
      requires Valid() && cell !in Cells()
      modifies this`actors, this`actorsOverflow, Cells()
      ensures Valid() && fresh(Cells() - old(Cells()))
      ensures Tallies() == AddStored(old(Tallies()), Entry(key, old(cell.Value())))
    {
      Sizes();
      ghost var t, entry := Tallies(), Entry(key, cell.Value());
      if key in actors {
        var known := actors[key];
        assert t.actors[key] == known.Value();
        var newer := cell.at.Some? && (known.at == None || cell.at.value > known.at.value);
        CountAgain(key, cell.count, if newer then cell.at else known.at);
      } else if |actors| < MAX_ACTORS {
        Admit(key, cell.Value());
      } else {
        actorsOverflow := actorsOverflow + cell.count;
        assert Tallies().actors == t.actors;
      }
      assert Tallies() == AddStored(t, entry);
    }

    /** The loop body over derived actors. */
    method AddDerivedActor(actor: Entry)
      requires Valid()
      modifies this`actors, this`actorsOverflow, Cells()
      ensures Valid() && fresh(Cells() - old(Cells()))
      ensures Tallies() == AddDerived(old(Tallies()), actor)
    {
      Sizes();
      if actor.key in actors {
        var known := actors[actor.key];
        var newer := DateOf(actor.tally.at) > DateOf(known.at);
        CountAgain(actor.key, actor.tally.count, if newer then actor.tally.at else known.at);
      } else if |actors| < MAX_ACTORS {
        Admit(actor.key, actor.tally);
      } else {
        actorsOverflow := actorsOverflow + actor.tally.count;
      }
    }

    /** The loop over a stored tally table. */
    method AddStoredActors(entries: seq<CellEntry>)
      requires Valid() && forall e | e in entries :: e.cell !in Cells()
      modifies this`actors, this`actorsOverflow, Cells()
      ensures Valid() && fresh(Cells() - old(Cells()))
      ensures Tallies() == AddAllStored(old(Tallies()), old(ReadEntries(entries)))
    {
      ghost var t, said := Tallies(), ReadEntries(entries);
      ReadLength(entries);
      hide AddStored, ReadEntries;
      for i := 0 to |entries|
        invariant Valid() && (forall e | e in entries :: e.cell !in Cells()) && fresh(Cells() - old(Cells()))
        invariant Tallies() == AddAllStored(t, said[..i]) && said == ReadEntries(entries)
      {
        EntryRead(entries, i);
        assert said[..i + 1][..i] == said[..i];
        AddStoredActor(entries[i].key, entries[i].cell);
      }
      assert said[..|said|] == said;
    }

    /** The loop over derived actors. */
    method AddDerivedActors(derived: seq<Entry>)
      requires Valid()
      modifies this`actors, this`actorsOverflow, Cells()
      ensures Valid() && fresh(Cells() - old(Cells()))
      ensures Tallies() == AddAllDerived(old(Tallies()), derived)
    {
      ghost var t := Tallies();
      hide AddDerived;
      for i := 0 to |derived|
        invariant Valid() && fresh(Cells() - old(Cells()))
        invariant Tallies() == AddAllDerived(t, derived[..i])
      {
        assert derived[..i + 1][..i] == derived[..i];
        AddDerivedActor(derived[i]);
      }
      assert derived[..|derived|] == derived;
    }

    /** summaryAddActors on this row. */
    method AddActorsOf(doc: Doc)
      requires Valid() && CellsOf(doc) !! Cells()
      modifies this`actors, this`actorsOverflow, Cells()
      ensures Valid() && fresh(Cells() - old(Cells()))
      ensures Tallies() == AddActors(old(Tallies()), old(Read(doc)))
    {
      hide AddAllStored, AddAllDerived;
      if doc.stored.Some? {
        assert forall e | e in doc.stored.value.entries :: e.cell in CellsOf(doc);
        AddStoredActors(doc.stored.value.entries);
        actorsOverflow := actorsOverflow + doc.stored.value.overflow;
      } else {
        AddDerivedActors(ActorsOf(Read(doc)));
      }
    }

    method TakeDates(doc: Doc)
      modifies this`first, this`last, this`firstAt, this`at, this`latest
      ensures Value() == Redated(old(Value()), Read(doc))
    {
      ghost var tallies := Tallies();
      if Earlier(doc.at, first) {
        first := doc.at;
        firstAt := DateValue(doc.at);
      }
      if NotEarlier(doc.at, last) {
        last := doc.at;
        at := DateValue(doc.at);
        latest := latest + doc.latest;
      }
      assert Tallies() == tallies;
    }

    /** The branch of FoldEvents for a key seen before. */
    method Merge(doc: Doc)
      requires Valid() && CellsOf(doc) !! Cells()
      modifies this, Cells()
      ensures Valid() && fresh(Cells() - old(Cells()))
      ensures Value() == MergeRow(old(Value()), old(Read(doc)))
    {
      ghost var before, e := Value(), Read(doc);
      hide AddActors, Weight, Redated;
      var times := Weight(Read(doc));
      AddActorsOf(doc);
      count := count + times;
      assert Value() == before.(table := AddActors(before.table, e), count := before.count + Weight(e));
      TakeDates(doc);
    }
  }

  lemma {:induction false} ReadLength(entries: seq<CellEntry>)
    ensures |ReadEntries(entries)| == |entries|
    decreases |entries|
  {
    if entries != [] { ReadLength(entries[..|entries| - 1]); }
  }

  lemma {:induction false} EntryRead(entries: seq<CellEntry>, i: nat)
    requires i < |entries|
    ensures |ReadEntries(entries)| == |entries|
    ensures ReadEntries(entries)[i] == Entry(entries[i].key, entries[i].cell.Value())
    decreases |entries|
  {
    if i < |entries| - 1 {
      EntryRead(entries[..|entries| - 1], i);
    } else if i > 0 {
      EntryRead(entries[..|entries| - 1], i - 1);
    }
  }

  // ---- the fold over the documents ----

  /** The tally objects of all rows. */
  ghost function RowCells(rows: seq<Record>): set<Cell>
    reads rows
  {
    set r, k | r in rows && k in r.actors :: r.actors[k]
  }

  ghost function Values(rows: seq<Record>): seq<Row>
    reads rows, RowCells(rows)
  {
    seq(|rows|, i requires 0 <= i < |rows| reads rows, RowCells(rows) => rows[i].Value())
  }

  /** No two rows and no two actors share a tally object. */
  ghost predicate Separate(rows: seq<Record>)
    reads rows
  {
    && (forall i, j | 0 <= i < j < |rows| :: rows[i] != rows[j] && rows[i].Cells() !! rows[j].Cells())
    && forall i | 0 <= i < |rows| :: rows[i].Valid()
  }

  /** byKey finds every row by its key. */
  ghost predicate Indexed(rows: seq<Record>, byKey: map<string, Record>) {
    && (forall r | r in rows :: Join(r.identity) in byKey && byKey[Join(r.identity)] == r)
    && (forall k | k in byKey :: byKey[k] in rows && Join(byKey[k].identity) == k)
  }

  /** The lookup in byKey agrees with the position of the key among the rows. */
  lemma LookupAgrees(rows: seq<Record>, byKey: map<string, Record>, k: string)
    requires Indexed(rows, byKey) && Separate(rows)
    ensures var i := IndexOf(KeysOf(Values(rows)), k);
            if k in byKey then i < |rows| && rows[i] == byKey[k] else i == |rows|
  {
    var i := IndexOf(KeysOf(Values(rows)), k);
    assert i < |rows| ==> KeysOf(Values(rows))[i] == Join(rows[i].identity);
    if k in byKey {
      var j :| 0 <= j < |rows| && rows[j] == byKey[k];
      assert KeysOf(Values(rows))[j] == k;
    }
  }

  /** Merges a document into one of the rows; the others stay as they are. */
  method MergeInto(ghost rows: seq<Record>, ghost i: nat, row: Record, doc: Doc)
    requires Separate(rows) && i < |rows| && rows[i] == row && CellsOf(doc) !! row.Cells()
    modifies row, row.Cells()
    ensures Separate(rows) && fresh(row.Cells() - old(row.Cells()))
    ensures row.Value() == MergeRow(old(row.Value()), old(Read(doc)))
    ensures forall j | 0 <= j < |rows| && j != i ::
              rows[j].Value() == old(rows[j].Value()) && rows[j].Cells() == old(rows[j].Cells())
  {
    hide MergeRow, AddActors;
    row.Merge(doc);
  }

  lemma CellsOfRow(rows: seq<Record>, i: nat)
    requires i < |rows|
    ensures rows[i].Cells() <= RowCells(rows)
  {}

  lemma ReplacedRow(rows: seq<Row>, i: nat, e: Event, after: seq<Row>)
    requires i == IndexOf(KeysOf(rows), Key(e)) < |rows| == |after|
    requires forall j | 0 <= j < |rows| :: after[j] == if j == i then MergeRow(rows[i], e) else rows[j]
    ensures after == FoldOne(rows, e)
  {
    hide MergeRow, KeysOf;
  }

  /** A document whose key is known is merged into that row, in place. */
  method FoldIntoExisting(rows: seq<Record>, byKey: map<string, Record>, doc: Doc)
    requires Indexed(rows, byKey) && Separate(rows) && Join(doc.identity) in byKey
    requires CellsOf(doc) !! RowCells(rows)
    modifies rows, RowCells(rows)
    ensures Separate(rows) && forall c | c in RowCells(rows) && c !in old(RowCells(rows)) :: fresh(c)
    ensures Values(rows) == FoldOne(old(Values(rows)), old(Read(doc)))
  {
    LookupAgrees(rows, byKey, Join(doc.identity));
    ghost var before, e := Values(rows), Read(doc);
    ghost var i := IndexOf(KeysOf(before), Key(e));
    CellsOfRow(rows, i);
    hide MergeRow, KeysOf, FoldOne, Separate, Indexed, IndexOf;
    MergeInto(rows, i, byKey[Join(doc.identity)], doc);
    ReplacedRow(before, i, e, Values(rows));
  }

  /** A new row from one document. */
  method StartRow(doc: Doc) returns (row: Record)
    ensures fresh(row) && fresh(row.Cells()) && row.Valid() && row.identity == doc.identity
    ensures row.Value() == NewRow(old(Read(doc)))
  {
    hide AddActors, Weight;
    row := new Record(doc);
    row.AddActorsOf(doc);
  }

  lemma AddingRecord(rows: seq<Record>, byKey: map<string, Record>, row: Record)
    requires Indexed(rows, byKey) && Separate(rows) && row !in rows && Join(row.identity) !in byKey
    requires row.Valid() && row.Cells() !! RowCells(rows)
    ensures Indexed(rows + [row], byKey[Join(row.identity) := row]) && Separate(rows + [row])
    ensures RowCells(rows + [row]) == RowCells(rows) + row.Cells()
    ensures Values(rows + [row]) == Values(rows) + [row.Value()]
  {
    forall i, j | 0 <= i < j < |rows + [row]|
      ensures (rows + [row])[i] != (rows + [row])[j] && (rows + [row])[i].Cells() !! (rows + [row])[j].Cells()
    {
      if j == |rows| {
        assert rows[i] in rows;
        CellsOfRow(rows, i);
      }
    }
  }

  /** A document with a new key starts a row at the end. */
  method FoldIntoNew(rows: seq<Record>, byKey: map<string, Record>, doc: Doc)
    returns (rows': seq<Record>, byKey': map<string, Record>)
    requires Indexed(rows, byKey) && Separate(rows) && Join(doc.identity) !in byKey
    ensures Indexed(rows', byKey') && Separate(rows')
    ensures |rows'| == |rows| + 1 && rows'[..|rows|] == rows && fresh(rows'[|rows|])
    ensures forall c | c in RowCells(rows') && c !in RowCells(rows) :: fresh(c)
    ensures Values(rows') == FoldOne(old(Values(rows)), old(Read(doc)))
  {
    LookupAgrees(rows, byKey, Join(doc.identity));
    ghost var before, e := Values(rows), Read(doc);
    assert FoldOne(before, e) == before + [NewRow(e)];
    hide KeysOf, NewRow, Separate, Indexed, FoldOne;
    var row := StartRow(doc);
    assert Values(rows) == before;
    AddingRecord(rows, byKey, row);
    rows', byKey' := rows + [row], byKey[Join(doc.identity) := row];
  }

  /** FoldEvents: no document is changed, and the rows hold only tally objects of their own. */
  method FoldEvents(docs: seq<Doc>) returns (rows: seq<Record>)
    ensures fresh(rows) && fresh(RowCells(rows)) && Separate(rows)
    ensures Values(rows) == FoldAll([], ReadAll(docs))
    ensures ReadAll(docs) == old(ReadAll(docs))
  {
    rows := [];
    var byKey: map<string, Record> := map[];
    ghost var said := ReadAll(docs);
    InputsAreAllocated(docs);
    NoRows();
    ReadAllLength(docs);
    hide FoldOne, Values, Key, Read, Separate, Indexed, RowCells;
    for n := 0 to |docs|
      invariant fresh(rows) && fresh(RowCells(rows)) && Indexed(rows, byKey) && Separate(rows)
      invariant said == ReadAll(docs) && Values(rows) == FoldAll([], said[..n])
    {
      DocumentRead(docs, n);
      assert said[..n + 1][..n] == said[..n];
      assert FoldAll([], said[..n + 1]) == FoldOne(FoldAll([], said[..n]), said[n]);
      if Join(docs[n].identity) in byKey {
        FoldIntoExisting(rows, byKey, docs[n]);
      } else {
        rows, byKey := FoldIntoNew(rows, byKey, docs[n]);
      }
    }
    assert said[..|docs|] == said;
  }

  lemma NoRows()
    ensures Values([]) == [] && RowCells([]) == {} && Separate([]) && Indexed([], map[])
  {}

  /** The tally objects of the documents exist already. */
  lemma {:induction false} InputsAreAllocated(docs: seq<Doc>)
    ensures forall c | c in InputCells(docs) :: allocated(c)
    decreases |docs|
  {
    if docs != [] { InputsAreAllocated(docs[..|docs| - 1]); }
  }

  lemma {:induction false} ReadAllLength(docs: seq<Doc>)
    ensures |ReadAll(docs)| == |docs|
    decreases |docs|
  {
    if docs != [] { ReadAllLength(docs[..|docs| - 1]); }
  }

  lemma {:induction false} DocumentRead(docs: seq<Doc>, n: nat)
    requires n < |docs|
    ensures CellsOf(docs[n]) <= InputCells(docs)
    ensures |ReadAll(docs)| == |docs| && ReadAll(docs)[n] == Read(docs[n])
    decreases |docs|
  {
    ReadAllLength(docs);
    if n < |docs| - 1 { DocumentRead(docs[..|docs| - 1], n); }
  }
}
