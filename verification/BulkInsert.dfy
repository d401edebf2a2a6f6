/**
 The insert command of internal/compat/ferretdb/internal/handler/msg_insert.go: documents are
 validated and collected in batches, a batch goes to the backend in one all-or-nothing call, and
 a batch that is refused is inserted one document at a time. The reference is plain insertion,
 one document after the other.
 */
module BulkInsert {
  import opened Optional

  datatype Code = BadValue | InvalidID | DuplicateKeyInsert

  /** `flaw` is the verdict of the document's validation; `entries` are its keys in unique indexes. */
  datatype Doc = Doc(id: Option<nat>, entries: set<nat>, flaw: Option<Code>)

  datatype WriteError = WriteError(index: nat, code: Code)

  /** What is stored, how many documents were inserted, and what was reported. */
  datatype Report = Report(stored: seq<Doc>, n: nat, errors: seq<WriteError>)

  predicate Conflict(a: Doc, b: Doc) {
    a.id == b.id || a.entries * b.entries != {}
  }

  predicate Admits(stored: seq<Doc>, d: Doc) {
    forall i | 0 <= i < |stored| :: !Conflict(stored[i], d)
  }

  predicate AdmitsAll(stored: seq<Doc>, batch: seq<Doc>) {
    forall j | 0 <= j < |batch| :: Admits(stored + batch[..j], batch[j])
  }

  /** One valid document offered on its own. */
  function Offer(r: Report, i: nat, d: Doc): Report {
    if Admits(r.stored, d) then Report(r.stored + [d], r.n + 1, r.errors)
    else r.(errors := r.errors + [WriteError(i, DuplicateKeyInsert)])
  }

  /** The documents of the command, and the object id generated for each that lacks one. */
  datatype Request = Request(docs: seq<Doc>, newId: nat -> nat) {

    function At(i: nat): Doc
      requires i < |docs|
    {
      if docs[i].id.None? then docs[i].(id := Some(newId(i))) else docs[i]
    }

    /** The reference: the first k documents inserted one by one into an initial collection. */
    function OneByOne(stored: seq<Doc>, k: nat): Report
      requires k <= |docs|
    {
      if k == 0 then Report(stored, 0, [])
      else
        var r := OneByOne(stored, k - 1);
        var d := At(k - 1);
        if d.flaw.Some? then r.(errors := r.errors + [WriteError(k - 1, d.flaw.value)])
        else Offer(r, k - 1, d)
    }

    /** Document i is refused in one-by-one insertion. */
    predicate Refused(stored: seq<Doc>, i: nat)
      requires i < |docs|
    {
      docs[i].flaw.Some? || !Admits(OneByOne(stored, i).stored, At(i))
    }

    // ---- what a batch over the documents p..q-1 collects ----

    function Valid(p: nat, q: nat): (r: seq<Doc>)
      requires p <= q <= |docs|
      ensures |r| == |Places(p, q)|
    {
      if p == q then [] else if docs[q - 1].flaw.Some? then Valid(p, q - 1) else Valid(p, q - 1) + [At(q - 1)]
    }

    function Places(p: nat, q: nat): (r: seq<nat>)
      requires p <= q <= |docs|
    {
      if p == q then [] else if docs[q - 1].flaw.Some? then Places(p, q - 1) else Places(p, q - 1) + [q - 1]
    }

    function Flaws(p: nat, q: nat): seq<WriteError>
      requires p <= q <= |docs|
    {
      if p == q then []
      else if docs[q - 1].flaw.Some? then Flaws(p, q - 1) + [WriteError(q - 1, docs[q - 1].flaw.value)]
      else Flaws(p, q - 1)
    }
  }

  function Singles(r: Report, batch: seq<Doc>, places: seq<nat>): Report
    requires |batch| == |places|
    decreases |batch|
  {
    if batch == [] then r else Singles(Offer(r, places[0], batch[0]), batch[1..], places[1..])
  }

  /** Equal up to the order in which the errors were recorded. */
  predicate Same(r: Report, s: Report) {
    r.stored == s.stored && r.n == s.n && multiset(r.errors) == multiset(s.errors)
  }

  // ---- the backend ----

  datatype Outcome = Inserted | InsertDuplicateID | Failed

  /** A collection behind the contract of InsertAll: all documents or none. `faults` says which
      calls fail for another reason. */
  class Collection {
    var stored: seq<Doc>
    var calls: nat
    const faults: nat -> bool

    constructor (stored: seq<Doc>, faults: nat -> bool)
      ensures this.stored == stored && this.faults == faults && calls == 0
    {
      this.stored, this.faults, calls := stored, faults, 0;
    }

    method InsertAll(batch: seq<Doc>) returns (r: Outcome)
      modifies this
      ensures calls == old(calls) + 1
      ensures r == if faults(old(calls)) then Failed
                   else if AdmitsAll(old(stored), batch) then Inserted else InsertDuplicateID
      ensures stored == if r == Inserted then old(stored) + batch else old(stored)
    {
      var now := calls;
      calls := calls + 1;
      if faults(now) { return Failed; }
      var before, j := stored, 0;
      while j < |batch|
        invariant 0 <= j <= |batch| && stored == before + batch[..j] && calls == now + 1
        invariant AdmitsAll(before, batch[..j])
      {
        if !Admits(stored, batch[j]) {
          stored := before; // rolled back
          return InsertDuplicateID;
        }
        stored := stored + [batch[j]];
        assert forall i | 0 <= i < j :: batch[..j + 1][..i] == batch[..j][..i];
        assert batch[..j + 1][..j] == batch[..j];
        j := j + 1;
      }
      assert batch[..j] == batch;
      return Inserted;
    }
  }

  // ---- singles and batches ----

  lemma {:induction false} SinglesAppend(r: Report, batch: seq<Doc>, places: seq<nat>, d: Doc, i: nat)
    requires |batch| == |places|
    ensures Singles(r, batch + [d], places + [i]) == Offer(Singles(r, batch, places), i, d)
    decreases |batch|
  {
    if batch == [] {
      assert Singles(Offer(r, i, d), [], []) == Offer(r, i, d);
      assert (batch + [d])[1..] == [] && (places + [i])[1..] == [];
    } else {
      SinglesAppend(Offer(r, places[0], batch[0]), batch[1..], places[1..], d, i);
      assert (batch + [d])[1..] == batch[1..] + [d] && (places + [i])[1..] == places[1..] + [i];
    }
  }

  /** Errors recorded earlier do not influence what singles do. */
  lemma {:induction false} SinglesAfterErrors(r: Report, s: Report, batch: seq<Doc>, places: seq<nat>,
                                              more: multiset<WriteError>)
    requires |batch| == |places| && r.stored == s.stored && r.n == s.n
    requires multiset(s.errors) == multiset(r.errors) + more
    ensures var r', s' := Singles(r, batch, places), Singles(s, batch, places);
            r'.stored == s'.stored && r'.n == s'.n && multiset(s'.errors) == multiset(r'.errors) + more
    decreases |batch|
  {
    if batch != [] {
      SinglesAfterErrors(Offer(r, places[0], batch[0]), Offer(s, places[0], batch[0]), batch[1..], places[1..], more);
    }
  }

  lemma {:induction false} SinglesAllAdmitted(r: Report, batch: seq<Doc>, places: seq<nat>)
    requires |batch| == |places| && AdmitsAll(r.stored, batch)
    ensures Singles(r, batch, places) == Report(r.stored + batch, r.n + |batch|, r.errors)
    decreases |batch|
  {
    if batch != [] {
      assert r.stored + batch[..0] == r.stored;
      forall j | 0 <= j < |batch| - 1 ensures Admits(r.stored + [batch[0]] + batch[1..][..j], batch[1..][j]) {
        assert r.stored + [batch[0]] + batch[1..][..j] == r.stored + batch[..j + 1];
      }
      SinglesAllAdmitted(Offer(r, places[0], batch[0]), batch[1..], places[1..]);
      assert r.stored + [batch[0]] + batch[1..] == r.stored + batch;
    }
  }

  lemma OfferKeepsSame(r: Report, s: Report, i: nat, d: Doc)
    requires Same(r, s)
    ensures Same(Offer(r, i, d), Offer(s, i, d))
  {}

  lemma NotingKeepsSame(r: Report, s: Report, e: WriteError)
    requires Same(r, s)
    ensures Same(r.(errors := r.errors + [e]), s.(errors := s.errors + [e]))
  {}

  /** A batch over p..q-1, its flaws recorded first and its valid documents inserted afterwards, does
      what one-by-one insertion of those documents does. */
  lemma {:induction false} BatchIsOneByOne(req: Request, stored: seq<Doc>, r: Report, p: nat, q: nat)
    requires p <= q <= |req.docs| && Same(r, req.OneByOne(stored, p))
    ensures Same(Singles(r.(errors := r.errors + req.Flaws(p, q)), req.Valid(p, q), req.Places(p, q)),
            req.OneByOne(stored, q))
    decreases q
  {
    hide Same, Offer, Request.OneByOne;
    if p == q {
      assert r.(errors := r.errors + []) == r == Singles(r, [], []);
    } else {
      BatchIsOneByOne(req, stored, r, p, q - 1);
      BatchGrows(req, stored, r, p, q - 1);
    }
  }

  lemma BatchGrows(req: Request, stored: seq<Doc>, r: Report, p: nat, k: nat)
    requires p <= k < |req.docs|
    requires Same(Singles(r.(errors := r.errors + req.Flaws(p, k)), req.Valid(p, k), req.Places(p, k)),
             req.OneByOne(stored, k))
    ensures Same(Singles(r.(errors := r.errors + req.Flaws(p, k + 1)), req.Valid(p, k + 1), req.Places(p, k + 1)),
                 req.OneByOne(stored, k + 1))
  {
    var before := r.(errors := r.errors + req.Flaws(p, k));
    var d := req.docs[k];
    if d.flaw.Some? {
      var e := WriteError(k, d.flaw.value);
      var after := r.(errors := r.errors + req.Flaws(p, k + 1));
      assert after.errors == before.errors + [e];
      SinglesAfterErrors(before, after, req.Valid(p, k), req.Places(p, k), multiset{e});
      NotingKeepsSame(Singles(before, req.Valid(p, k), req.Places(p, k)), req.OneByOne(stored, k), e);
    } else {
      SinglesAppend(before, req.Valid(p, k), req.Places(p, k), req.At(k), k);
      OfferKeepsSame(Singles(before, req.Valid(p, k), req.Places(p, k)), req.OneByOne(stored, k), k, req.At(k));
    }
  }

  lemma {:induction false} ValidUpTo(req: Request, p: nat, q: nat, j: nat)
    requires p <= q <= |req.docs| && j < |req.Valid(p, q)|
    ensures p <= req.Places(p, q)[j] < q
    ensures req.Valid(p, q)[..j] == req.Valid(p, req.Places(p, q)[j])
    ensures req.Places(p, q)[..j] == req.Places(p, req.Places(p, q)[j])
    ensures req.Valid(p, q)[j] == req.At(req.Places(p, q)[j]) && req.docs[req.Places(p, q)[j]].flaw.None?
    decreases q
  {
    if j < |req.Valid(p, q - 1)| {
      ValidUpTo(req, p, q - 1, j);
      assert req.Valid(p, q)[..j] == req.Valid(p, q - 1)[..j] && req.Places(p, q)[..j] == req.Places(p, q - 1)[..j];
    } else {
      assert req.Valid(p, q)[..j] == req.Valid(p, q - 1) && req.Places(p, q)[..j] == req.Places(p, q - 1);
    }
  }

  /** Just before the j-th document of a batch is tried, the collection is that of one-by-one insertion. */
  lemma StoredBefore(req: Request, stored: seq<Doc>, r: Report, p: nat, q: nat, j: nat)
    requires p <= q <= |req.docs| && Same(r, req.OneByOne(stored, p)) && j < |req.Valid(p, q)|
    ensures p <= req.Places(p, q)[j] < q
    ensures Singles(r.(errors := r.errors + req.Flaws(p, q)), req.Valid(p, q)[..j], req.Places(p, q)[..j]).stored
         == req.OneByOne(stored, req.Places(p, q)[j]).stored
  {
    ValidUpTo(req, p, q, j);
    var m := req.Places(p, q)[j];
    BatchIsOneByOne(req, stored, r, p, m);
    SinglesAfterErrors(r, r.(errors := r.errors + req.Flaws(p, m)), req.Valid(p, m), req.Places(p, m),
      multiset(req.Flaws(p, m)));
    SinglesAfterErrors(r, r.(errors := r.errors + req.Flaws(p, q)), req.Valid(p, m), req.Places(p, m),
      multiset(req.Flaws(p, q)));
  }

  // ---- the reported errors ----

  predicate Ascending(errors: seq<WriteError>) {
    forall i, j | 0 <= i < j < |errors| :: errors[i].index < errors[j].index
  }

  function InsertByIndex(e: WriteError, sorted: seq<WriteError>): (r: seq<WriteError>)
    ensures multiset(r) == multiset(sorted) + multiset{e}
  {
    if sorted == [] || e.index <= sorted[0].index then [e] + sorted
    else
      assert sorted == [sorted[0]] + sorted[1..];
      [sorted[0]] + InsertByIndex(e, sorted[1..])
  }

  /** Stands for the library's sort by index. */
  function SortByIndex(errors: seq<WriteError>): (r: seq<WriteError>)
    ensures multiset(r) == multiset(errors)
  {
    if errors == [] then []
    else
      assert errors == [errors[0]] + errors[1..];
      InsertByIndex(errors[0], SortByIndex(errors[1..]))
  }

  predicate Ordered(errors: seq<WriteError>) {
    forall i, j | 0 <= i < j < |errors| :: errors[i].index <= errors[j].index
  }

  lemma {:induction false} InsertKeepsOrder(e: WriteError, sorted: seq<WriteError>)
    requires Ordered(sorted)
    ensures Ordered(InsertByIndex(e, sorted))
  {
    if sorted != [] && e.index > sorted[0].index {
      InsertKeepsOrder(e, sorted[1..]);
      var rest := InsertByIndex(e, sorted[1..]);
      forall x | x in rest ensures sorted[0].index <= x.index {
        assert x in multiset(rest);
        if x != e { assert x in sorted[1..]; }
      }
    }
  }

  lemma {:induction false} SortOrders(errors: seq<WriteError>)
    ensures Ordered(SortByIndex(errors))
  {
    if errors != [] {
      SortOrders(errors[1..]);
      InsertKeepsOrder(errors[0], SortByIndex(errors[1..]));
    }
  }

  lemma SameFirst(a: seq<WriteError>, b: seq<WriteError>)
    requires multiset(a) == multiset(b) && Ordered(a) && Ascending(b) && b != []
    ensures a != [] && a[0] == b[0]
  {
    assert b[0] in multiset(b);
    assert b[0] in a;
    assert a[0] in multiset(a);
    assert a[0] in b;
    var i :| 0 <= i < |b| && b[i] == a[0];
    var j :| 0 <= j < |a| && a[j] == b[0];
    assert b[i].index <= b[0].index;
  }

  lemma WithoutFirst(a: seq<WriteError>)
    requires a != []
    ensures multiset(a[1..]) == multiset(a) - multiset{a[0]}
  {
    assert a == [a[0]] + a[1..];
  }

  lemma {:induction false} AscendingIsUnique(a: seq<WriteError>, b: seq<WriteError>)
    requires multiset(a) == multiset(b) && Ordered(a) && Ascending(b)
    ensures a == b
  {
    if b == [] {
      assert |multiset(a)| == |a|;
    } else {
      SameFirst(a, b);
      WithoutFirst(a);
      WithoutFirst(b);
      AscendingIsUnique(a[1..], b[1..]);
    }
  }

  /** One-by-one insertion stores or reports each document once, and reports in index order. */
  lemma {:induction false} StoredOrReported(req: Request, stored: seq<Doc>, k: nat)
    requires k <= |req.docs|
    ensures var r := req.OneByOne(stored, k);
            r.n + |r.errors| == k && |r.stored| == |stored| + r.n && stored <= r.stored
            && Ascending(r.errors) && forall e | e in r.errors :: e.index < k
  {
    if k > 0 {
      StoredOrReported(req, stored, k - 1);
      hide Admits;
    }
  }

  /** The report lists exactly the refused documents, with the code of their flaw or as duplicates. */
  lemma {:induction false} RefusedExactlyReported(req: Request, stored: seq<Doc>, k: nat, e: WriteError)
    requires k <= |req.docs|
    ensures e in req.OneByOne(stored, k).errors <==>
              e.index < k && req.Refused(stored, e.index)
              && e.code == if req.docs[e.index].flaw.Some? then req.docs[e.index].flaw.value else DuplicateKeyInsert
  {
    if k > 0 {
      hide Admits;
      RefusedExactlyReported(req, stored, k - 1, e);
      var before, r := req.OneByOne(stored, k - 1).errors, req.OneByOne(stored, k).errors;
      if req.Refused(stored, k - 1) {
        assert |r| == |before| + 1 && r[..|before|] == before && r[|before|].index == k - 1;
        assert e in r <==> e in before || e == r[|before|];
      }
    }
  }

  lemma {:induction false} AcceptedAreStored(req: Request, stored: seq<Doc>, k: nat, i: nat)
    requires i < k <= |req.docs| && !req.Refused(stored, i)
    ensures req.At(i) in req.OneByOne(stored, k).stored
  {
    hide Admits;
    var before, after := req.OneByOne(stored, k - 1).stored, req.OneByOne(stored, k).stored;
    if i < k - 1 {
      AcceptedAreStored(req, stored, k - 1, i);
      assert before <= after;
    } else {
      assert after[|before|] == req.At(i);
    }
  }

  /** No two documents have one id or a key in common. */
  predicate ConflictFree(stored: seq<Doc>) {
    forall i, j | 0 <= i < j < |stored| :: stored[i].id != stored[j].id && stored[i].entries * stored[j].entries == {}
  }

  /** Ids and unique index entries stay unique. */
  lemma {:induction false} StaysConflictFree(req: Request, stored: seq<Doc>, k: nat)
    requires k <= |req.docs| && ConflictFree(stored)
    ensures ConflictFree(req.OneByOne(stored, k).stored)
  {
    if k > 0 {
      StaysConflictFree(req, stored, k - 1);
    }
  }

  // ---- the command ----

  /** How many documents of a batch are tried singly: in an ordered command, none after the first refused one. */
  function Reach(stored: seq<Doc>, batch: seq<Doc>, ordered: bool): (r: nat)
    ensures r <= |batch| && (!ordered ==> r == |batch|)
    decreases |batch|
  {
    if batch == [] then 0
    else if Admits(stored, batch[0]) then 1 + Reach(stored + [batch[0]], batch[1..], ordered)
    else if ordered then 1
    else 1 + Reach(stored, batch[1..], ordered)
  }

  lemma SingleAdmitted(stored: seq<Doc>, d: Doc)
    ensures AdmitsAll(stored, [d]) <==> Admits(stored, d)
  {
    assert stored + [d][..0] == stored;
  }

  lemma TrySingle(start: Report, batch: seq<Doc>, places: seq<nat>, j: nat, ordered: bool)
    requires j < |batch| == |places|
    ensures var r := Singles(start, batch[..j], places[..j]);
            var r' := Offer(r, places[j], batch[j]);
            Singles(start, batch[..j + 1], places[..j + 1]) == r'
            && Reach(r.stored, batch[j..], ordered)
               == 1 + if ordered && r'.stored == r.stored then 0 else Reach(r'.stored, batch[j + 1..], ordered)
  {
    SinglesAppend(start, batch[..j], places[..j], batch[j], places[j]);
    assert batch[..j + 1] == batch[..j] + [batch[j]] && places[..j + 1] == places[..j] + [places[j]];
    assert batch[j..][1..] == batch[j + 1..];
  }

  /** The first of the backend calls from number `from` on that fails for another reason comes after n others. */
  ghost predicate FirstFault(faults: nat -> bool, from: nat, n: nat) {
    faults(from + n) && forall i: nat | from <= i < from + n :: !faults(i)
  }

  method InsertSingly(c: Collection, batch: seq<Doc>, places: seq<nat>, ordered: bool, n0: nat,
                      errors0: seq<WriteError>)
    returns (failed: bool, n: nat, errors: seq<WriteError>)
    requires |batch| == |places|
    modifies c
    ensures var start := Report(old(c.stored), n0, errors0);
            var k := Reach(start.stored, batch, ordered);
            if failed then
              exists j: nat | j < k && FirstFault(c.faults, old(c.calls), j) ::
                c.stored == Singles(start, batch[..j], places[..j]).stored
            else
              Report(c.stored, n, errors) == Singles(start, batch[..k], places[..k]) && c.calls == old(c.calls) + k
  {
    ghost var start, before := Report(c.stored, n0, errors0), c.calls;
    failed, n, errors := false, n0, errors0;
    var j := 0;
    while j < |batch|
      invariant 0 <= j <= |batch|
      invariant Report(c.stored, n, errors) == Singles(start, batch[..j], places[..j])
      invariant j + Reach(c.stored, batch[j..], ordered) == Reach(start.stored, batch, ordered)
      invariant c.calls == before + j && forall i | before <= i < before + j :: !c.faults(i)
    {
      SingleAdmitted(c.stored, batch[j]);
      TrySingle(start, batch, places, j, ordered);
      hide Reach, Singles, AdmitsAll, Admits;
      var outcome := c.InsertAll([batch[j]]);
      if outcome == Failed { return true, n, errors; }
      if outcome == Inserted {
        n := n + 1;
      } else {
        errors := errors + [WriteError(places[j], DuplicateKeyInsert)];
        if ordered { return; }
      }
      j := j + 1;
    }
  }

  /** Where an ordered batch of at most n documents from document `from` on ends: after the first flawed one. */
  function FillEnd(req: Request, from: nat, n: nat): (q: nat)
    requires from <= |req.docs|
    ensures from <= q <= |req.docs| && q <= from + n && (from < |req.docs| && n > 0 ==> from < q)
    ensures q == |req.docs| || q == from + n || (from < q && req.docs[q - 1].flaw.Some?)
    ensures forall i | from <= i < q - 1 :: req.docs[i].flaw.None?
    decreases n
  {
    if n == 0 || from == |req.docs| then from
    else if req.docs[from].flaw.Some? then from + 1
    else FillEnd(req, from + 1, n - 1)
  }

  /** Fills one batch from document `from` on: at most batchSize documents, ending after a flawed one when ordered. */
  method FillBatch(req: Request, from: nat, batchSize: nat, ordered: bool, errors0: seq<WriteError>)
    returns (batch: seq<Doc>, places: seq<nat>, next: nat, errors: seq<WriteError>, done: bool)
    requires from <= |req.docs|
    ensures from <= next <= |req.docs| && next <= from + batchSize
    ensures batch == req.Valid(from, next) && places == req.Places(from, next)
            && errors == errors0 + req.Flaws(from, next)
    ensures done ==> next == |req.docs|
    ensures !done ==> next == from + batchSize || (ordered && from < next && req.docs[next - 1].flaw.Some?)
    ensures ordered ==> next == FillEnd(req, from, batchSize)
  {
    batch, places, next, errors, done := [], [], from, errors0, false;
    for j := 0 to batchSize
      invariant next == from + j <= |req.docs| && !done
      invariant batch == req.Valid(from, next) && places == req.Places(from, next)
                && errors == errors0 + req.Flaws(from, next)
      invariant ordered ==> FillEnd(req, from, batchSize) == FillEnd(req, next, batchSize - j)
    {
      if next == |req.docs| {
        done := true;
        break;
      }
      var d := req.At(next);
      next := next + 1;
      if d.flaw.None? {
        batch, places := batch + [d], places + [next - 1];
        continue;
      }
      errors := errors + [WriteError(next - 1, d.flaw.value)];
      if ordered { break; }
    }
  }

  /** What one round of the batching loop makes of a report. */
  function Round(req: Request, r: Report, p: nat, q: nat, ordered: bool): Report
    requires p <= q <= |req.docs|
  {
    Partial(req, r, p, q, Reach(r.stored, req.Valid(p, q), ordered))
  }

  /** A round broken off after the first j valid documents. */
  function Partial(req: Request, r: Report, p: nat, q: nat, j: nat): Report
    requires p <= q <= |req.docs| && j <= |req.Valid(p, q)|
  {
    Singles(r.(errors := r.errors + req.Flaws(p, q)), req.Valid(p, q)[..j], req.Places(p, q)[..j])
  }

  /** The batch of a round goes in as a whole. */
  predicate GoesInWhole(req: Request, r: Report, p: nat, q: nat, faults: nat -> bool, calls: nat)
    requires p <= q <= |req.docs|
  {
    !faults(calls) && AdmitsAll(r.stored, req.Valid(p, q))
  }

  /** The backend calls of a round: one for the batch, and one for each document tried singly. */
  function CallsOf(req: Request, r: Report, p: nat, q: nat, ordered: bool, faults: nat -> bool, calls: nat): nat
    requires p <= q <= |req.docs|
  {
    if GoesInWhole(req, r, p, q, faults, calls) then 1 else 1 + Reach(r.stored, req.Valid(p, q), ordered)
  }

  /** A round fails at its j-th valid document. */
  ghost predicate FailsAt(req: Request, r: Report, p: nat, q: nat, ordered: bool,
                          faults: nat -> bool, calls: nat, j: nat)
    requires p <= q <= |req.docs|
  {
    && !GoesInWhole(req, r, p, q, faults, calls)
    && j < Reach(r.stored, req.Valid(p, q), ordered) && FirstFault(faults, calls + 1, j)
  }

  /** What a round that is `failed` or not, and `whole` or not, makes of a report and of the number of calls. */
  ghost predicate RoundMade(req: Request, r: Report, p: nat, q: nat, ordered: bool, faults: nat -> bool, calls: nat,
                            failed: bool, whole: bool, r': Report, calls': nat)
    requires p <= q <= |req.docs|
  {
    && (whole <==> GoesInWhole(req, r, p, q, faults, calls)) && (whole ==> !failed)
    && (!failed ==>
          r' == Round(req, r, p, q, ordered) && calls' == calls + CallsOf(req, r, p, q, ordered, faults, calls))
    && (failed ==> exists j: nat | FailsAt(req, r, p, q, ordered, faults, calls, j) ::
          r'.stored == Partial(req, r, p, q, j).stored)
  }

  /** Inserts one batch, at once or else singly. */
  method InsertBatch(c: Collection, ghost req: Request, ghost p: nat, ghost q: nat, ordered: bool,
                     batch: seq<Doc>, places: seq<nat>, n0: nat, errors0: seq<WriteError>, ghost r: Report)
    returns (failed: bool, whole: bool, n: nat, errors: seq<WriteError>)
    requires p <= q <= |req.docs| && batch == req.Valid(p, q) && places == req.Places(p, q)
    requires r.stored == c.stored && n0 == r.n && errors0 == r.errors + req.Flaws(p, q)
    modifies c
    ensures RoundMade(req, r, p, q, ordered, c.faults, old(c.calls), failed, whole, Report(c.stored, n, errors),
                      c.calls)
  {
    ghost var start := Report(r.stored, n0, errors0);
    forall j: nat | j <= |batch| ensures Singles(start, batch[..j], places[..j]) == Partial(req, r, p, q, j) {}
    hide Partial, Singles, Reach, AdmitsAll, FirstFault, Request.Valid, Request.Flaws, Request.Places;
    var outcome := c.InsertAll(batch);
    if outcome == Inserted {
      WholeBatch(start, batch, places, ordered);
      return false, true, n0 + |batch|, errors0;
    }
    failed, n, errors := InsertSingly(c, batch, places, ordered, n0, errors0);
    whole := false;
  }

  lemma {:induction false} WholeBatch(r: Report, batch: seq<Doc>, places: seq<nat>, ordered: bool)
    requires |batch| == |places| && AdmitsAll(r.stored, batch)
    ensures Reach(r.stored, batch, ordered) == |batch|
    ensures Singles(r, batch[..|batch|], places[..|batch|]) == Report(r.stored + batch, r.n + |batch|, r.errors)
    decreases |batch|
  {
    assert batch[..|batch|] == batch && places[..|batch|] == places;
    SinglesAllAdmitted(r, batch, places);
    if batch != [] {
      assert r.stored + batch[..0] == r.stored;
      forall j | 0 <= j < |batch| - 1 ensures Admits(r.stored + [batch[0]] + batch[1..][..j], batch[1..][j]) {
        assert r.stored + [batch[0]] + batch[1..][..j] == r.stored + batch[..j + 1];
      }
      WholeBatch(Offer(r, places[0], batch[0]), batch[1..], places[1..], ordered);
    }
  }

  // ---- unordered commands ----

  lemma RoundIsOneByOne(req: Request, stored: seq<Doc>, r: Report, p: nat, q: nat)
    requires p <= q <= |req.docs| && Same(r, req.OneByOne(stored, p))
    ensures Same(Round(req, r, p, q, false), req.OneByOne(stored, q))
  {
    var valid, places := req.Valid(p, q), req.Places(p, q);
    assert valid[..|valid|] == valid && places[..|valid|] == places;
    BatchIsOneByOne(req, stored, r, p, q);
  }

  lemma FailedMidway(req: Request, stored: seq<Doc>, r: Report, p: nat, q: nat, now: seq<Doc>)
    requires p <= q <= |req.docs| && Same(r, req.OneByOne(stored, p))
    requires exists j: nat | j < |req.Valid(p, q)| :: now == Partial(req, r, p, q, j).stored
    ensures exists k: nat | k <= |req.docs| :: now == req.OneByOne(stored, k).stored
  {
    var j: nat :| j < |req.Valid(p, q)| && now == Partial(req, r, p, q, j).stored;
    StoredBefore(req, stored, r, p, q, j);
  }

  lemma SortedReport(req: Request, stored: seq<Doc>, r: Report)
    requires Same(r, req.OneByOne(stored, |req.docs|))
    ensures r.(errors := SortByIndex(r.errors)) == req.OneByOne(stored, |req.docs|)
  {
    StoredOrReported(req, stored, |req.docs|);
    SortOrders(r.errors);
    AscendingIsUnique(SortByIndex(r.errors), req.OneByOne(stored, |req.docs|).errors);
  }

  // ---- ordered commands ----

  /** An ordered command, the collection it finds, and which backend calls fail for other reasons. */
  datatype Command = Command(req: Request, stored: seq<Doc>, batchSize: nat, faults: nat -> bool, calls: nat)

  /** What was done so far, the next document and the number of the next backend call. */
  datatype Progress = Progress(report: Report, next: nat, calls: nat)

  /** The reference of an ordered command: its first k rounds, each over the documents up to the batch size
      or the first flawed one, each inserting up to the first duplicate. */
  function Rounds(o: Command, k: nat): (s: Progress)
    ensures s.next <= |o.req.docs|
  {
    if k == 0 then Progress(Report(o.stored, 0, []), 0, o.calls)
    else
      var s := Rounds(o, k - 1);
      var q := FillEnd(o.req, s.next, o.batchSize);
      Progress(Round(o.req, s.report, s.next, q, true), q,
               s.calls + CallsOf(o.req, s.report, s.next, q, true, o.faults, s.calls))
  }

  /** No document is left after k rounds, or the last batch went in whole with an error on record. */
  predicate Stops(o: Command, k: nat) {
    var s := Rounds(o, k);
    || s.next == |o.req.docs|
    || (k > 0 && s.report.errors != []
        && var before := Rounds(o, k - 1);
           GoesInWhole(o.req, before.report, before.next, s.next, o.faults, before.calls))
  }

  /** The rounds from the k-th on up to the first that stops. */
  function Until(o: Command, k: nat): Report
    requires o.batchSize > 0
    decreases |o.req.docs| - Rounds(o, k).next
  {
    if Stops(o, k) then Rounds(o, k).report else Until(o, k + 1)
  }

  /** What an ordered command does that no backend call breaks off. */
  function OrderedReference(o: Command): Report
    requires o.batchSize > 0
  {
    Until(o, 0)
  }

  function Sorted(r: Report): Report {
    r.(errors := SortByIndex(r.errors))
  }

  ghost predicate OnTheWay(o: Command, rounds: nat) {
    forall k: nat | k <= rounds :: !Stops(o, k)
  }

  /** Broken off inside a round before any that stops, at the document whose call fails. */
  ghost predicate BrokenOff(o: Command, now: seq<Doc>) {
    exists k: nat, j: nat :: OnTheWay(o, k) && BrokenOffAt(o, Rounds(o, k), j, now)
  }

  ghost predicate BrokenOffAt(o: Command, s: Progress, j: nat, now: seq<Doc>)
    requires s.next <= |o.req.docs|
  {
    var q := FillEnd(o.req, s.next, o.batchSize);
    FailsAt(o.req, s.report, s.next, q, true, o.faults, s.calls, j)
      && now == Partial(o.req, s.report, s.next, q, j).stored
  }

  lemma RoundAfter(o: Command, k: nat)
    ensures var s := Rounds(o, k);
            var q := FillEnd(o.req, s.next, o.batchSize);
            Rounds(o, k + 1) == Progress(Round(o.req, s.report, s.next, q, true), q,
                                         s.calls + CallsOf(o.req, s.report, s.next, q, true, o.faults, s.calls))
  {}

  /** Another round over no documents changes nothing. */
  lemma NextRound(o: Command, k: nat)
    requires o.batchSize > 0
    requires Stops(o, k) ==> Rounds(o, k).next == |o.req.docs|
    ensures Until(o, k + 1) == Until(o, k)
  {
    if Stops(o, k) {
      var s := Rounds(o, k);
      RoundGrows(o.req, s.report, s.next, s.next, true);
    }
  }

  ghost predicate FirstRefused(req: Request, stored: seq<Doc>, e: nat) {
    e < |req.docs| && req.Refused(stored, e) && forall i: nat | i < e :: !req.Refused(stored, i)
  }

  /** The end of the batch that document e falls in. */
  function BatchEnd(e: nat, batchSize: nat): nat
    requires batchSize > 0
  {
    (e / batchSize + 1) * batchSize
  }

  /** When an ordered command whose first refused document is e stops right there: when e is refused by
      validation, or its batch is the last and holds no flawed document after e. */
  predicate StopsThere(req: Request, e: nat, batchSize: nat)
    requires batchSize > 0 && e < |req.docs|
  {
    || req.docs[e].flaw.Some?
    || (|req.docs| <= BatchEnd(e, batchSize) && forall i | e < i < |req.docs| :: req.docs[i].flaw.None?)
  }

  ghost predicate OrderedOutcome(req: Request, stored: seq<Doc>, batchSize: nat, r: Report)
    requires batchSize > 0
  {
    && (forall e: nat | FirstRefused(req, stored, e) ::
          && req.OneByOne(stored, e).stored <= r.stored
          && (Same(r, req.OneByOne(stored, e + 1)) <==> StopsThere(req, e, batchSize)))
    && ((forall i: nat | i < |req.docs| :: !req.Refused(stored, i)) ==> r == req.OneByOne(stored, |req.docs|))
  }

  /** Nothing refused so far. */
  ghost predicate Clean(req: Request, stored: seq<Doc>, r: Report, p: nat) {
    && p <= |req.docs| && r == req.OneByOne(stored, p) && r.errors == []
    && forall i: nat | i < p :: !req.Refused(stored, i)
  }

  /** A duplicate was met and nothing happened since; the next batch starts after its own. */
  ghost predicate Tidy(req: Request, stored: seq<Doc>, batchSize: nat, r: Report, p: nat, e: nat)
    requires batchSize > 0 && e < |req.docs|
  {
    && Same(r, req.OneByOne(stored, e + 1))
    && e < p && (forall i | e < i < p <= |req.docs| :: req.docs[i].flaw.None?)
    && p == if BatchEnd(e, batchSize) <= |req.docs| then BatchEnd(e, batchSize) else |req.docs|
  }

  /** More happened after the first refused document. */
  ghost predicate Messy(req: Request, stored: seq<Doc>, batchSize: nat, r: Report, e: nat)
    requires batchSize > 0 && e < |req.docs|
  {
    && |r.stored| + |r.errors| > |req.OneByOne(stored, e).stored| + 1
    && req.OneByOne(stored, e).stored <= r.stored
    && !StopsThere(req, e, batchSize)
  }

  ghost predicate After(req: Request, stored: seq<Doc>, batchSize: nat, r: Report, p: nat, e: nat)
    requires batchSize > 0
  {
    && FirstRefused(req, stored, e) && req.docs[e].flaw.None? && r.errors != []
    && (Tidy(req, stored, batchSize, r, p, e) || Messy(req, stored, batchSize, r, e))
  }

  ghost predicate OrderedInv(req: Request, stored: seq<Doc>, batchSize: nat, r: Report, p: nat, rounds: nat, done: bool)
    requires batchSize > 0
  {
    || (Clean(req, stored, r, p) && (done || p == rounds * batchSize))
    || exists e: nat :: After(req, stored, batchSize, r, p, e)
  }

  lemma FirstIsUnique(req: Request, stored: seq<Doc>, e: nat, f: nat)
    requires FirstRefused(req, stored, e) && FirstRefused(req, stored, f)
    ensures e == f
  {}

  lemma RefusedAddsAnError(req: Request, stored: seq<Doc>, e: nat)
    requires e < |req.docs| && req.Refused(stored, e)
    ensures var before, r := req.OneByOne(stored, e), req.OneByOne(stored, e + 1);
            r.stored == before.stored && r.n == before.n && |r.errors| == |before.errors| + 1
              && r.errors[..|before.errors|] == before.errors
  {}

  lemma FirstErrorIsAlone(req: Request, stored: seq<Doc>, e: nat)
    requires FirstRefused(req, stored, e)
    ensures req.OneByOne(stored, e).errors == [] && |req.OneByOne(stored, e + 1).errors| == 1
    ensures req.OneByOne(stored, e + 1).stored == req.OneByOne(stored, e).stored
  {
    var errors := req.OneByOne(stored, e).errors;
    if errors != [] {
      RefusedExactlyReported(req, stored, e, errors[0]);
    }
    RefusedAddsAnError(req, stored, e);
  }

  lemma NoErrorsNoneRefused(req: Request, stored: seq<Doc>, q: nat)
    requires q <= |req.docs| && req.OneByOne(stored, q).errors == []
    ensures forall i: nat | i < q :: !req.Refused(stored, i)
  {
    forall i: nat | i < q ensures !req.Refused(stored, i) {
      var code := if req.docs[i].flaw.Some? then req.docs[i].flaw.value else DuplicateKeyInsert;
      RefusedExactlyReported(req, stored, q, WriteError(i, code));
    }
  }

  lemma {:induction false} FlawsOfABatch(req: Request, p: nat, q: nat)
    requires p <= q <= |req.docs| && forall i | p <= i < q - 1 :: req.docs[i].flaw.None?
    ensures req.Flaws(p, q)
            == if p < q && req.docs[q - 1].flaw.Some? then [WriteError(q - 1, req.docs[q - 1].flaw.value)] else []
    decreases q
  {
    if p < q { FlawsOfABatch(req, p, q - 1); }
  }

  lemma OutcomeAtFirst(req: Request, stored: seq<Doc>, batchSize: nat, r: Report, e: nat)
    requires batchSize > 0 && FirstRefused(req, stored, e) && req.OneByOne(stored, e).stored <= r.stored
    requires Same(r, req.OneByOne(stored, e + 1)) <==> StopsThere(req, e, batchSize)
    ensures OrderedOutcome(req, stored, batchSize, r)
  {
    hide Request.OneByOne, Same, StopsThere, Request.Refused;
    forall f: nat | FirstRefused(req, stored, f) ensures f == e { FirstIsUnique(req, stored, e, f); }
  }

  lemma SameSizes(r: Report, s: Report)
    ensures Same(r, s) ==> |r.errors| == |s.errors|
  {
    assert |multiset(r.errors)| == |r.errors| && |multiset(s.errors)| == |s.errors|;
  }

  lemma AfterIsOutcome(req: Request, stored: seq<Doc>, batchSize: nat, r: Report, p: nat, e: nat)
    requires batchSize > 0 && After(req, stored, batchSize, r, p, e)
             && (p == |req.docs| || Messy(req, stored, batchSize, r, e))
    ensures OrderedOutcome(req, stored, batchSize, r)
  {
    FirstErrorIsAlone(req, stored, e);
    SameSizes(r, req.OneByOne(stored, e + 1));
    OutcomeAtFirst(req, stored, batchSize, r, e);
  }

  lemma CleanIsOutcome(req: Request, stored: seq<Doc>, batchSize: nat, r: Report)
    requires batchSize > 0 && Clean(req, stored, r, |req.docs|)
    ensures OrderedOutcome(req, stored, batchSize, r)
  {}

  lemma {:induction false} FirstNotAdmitted(stored: seq<Doc>, batch: seq<Doc>)
    requires !AdmitsAll(stored, batch)
    ensures var k := Reach(stored, batch, true);
            0 < k && !Admits(stored + batch[..k - 1], batch[k - 1])
            && forall j | 0 <= j < k - 1 :: Admits(stored + batch[..j], batch[j])
    decreases |batch|
  {
    assert stored + batch[..0] == stored;
    if Admits(stored, batch[0]) {
      var rest := stored + [batch[0]];
      forall j | 0 < j < |batch|
        ensures stored + batch[..j] == rest + batch[1..][..j - 1] && batch[j] == batch[1..][j - 1]
      {}
      FirstNotAdmitted(rest, batch[1..]);
    }
  }

  lemma PrefixAdmitted(stored: seq<Doc>, batch: seq<Doc>, n: nat)
    requires n <= |batch| && forall j | 0 <= j < n :: Admits(stored + batch[..j], batch[j])
    ensures AdmitsAll(stored, batch[..n])
  {
    var prefix := batch[..n];
    forall j | 0 <= j < n ensures Admits(stored + prefix[..j], prefix[j]) {
      assert prefix[..j] == batch[..j];
    }
  }

  lemma CleanUpTo(req: Request, stored: seq<Doc>, r: Report, p: nat, e: nat)
    requires p <= e <= |req.docs| && Clean(req, stored, r, p)
    requires AdmitsAll(r.stored, req.Valid(p, e)) && req.Flaws(p, e) == []
    ensures Clean(req, stored, Report(r.stored + req.Valid(p, e), r.n + |req.Valid(p, e)|, []), e)
  {
    BatchIsOneByOne(req, stored, r, p, e);
    assert r.(errors := r.errors + []) == r;
    SinglesAllAdmitted(r, req.Valid(p, e), req.Places(p, e));
    SameSizes(Singles(r, req.Valid(p, e), req.Places(p, e)), req.OneByOne(stored, e));
    NoErrorsNoneRefused(req, stored, e);
  }

  /** The batch p..q-1 follows clean rounds and its first refused document is valid: a duplicate. */
  lemma FirstDuplicate(req: Request, stored: seq<Doc>, r: Report, p: nat, q: nat, k: nat) returns (e: nat)
    requires p <= q <= |req.docs| && Clean(req, stored, r, p) && !AdmitsAll(r.stored, req.Valid(p, q))
    requires forall i | p <= i < q - 1 :: req.docs[i].flaw.None?
    requires k == Reach(r.stored, req.Valid(p, q), true)
    ensures 0 < k && p <= e < q && FirstRefused(req, stored, e) && req.docs[e].flaw.None?
    ensures var before := req.Valid(p, q)[..k - 1];
            e == req.Places(p, q)[k - 1] && req.At(e) == req.Valid(p, q)[k - 1]
            && AdmitsAll(r.stored, before) && !Admits(r.stored + before, req.At(e))
            && req.OneByOne(stored, e) == Report(r.stored + before, r.n + |before|, [])
  {
    var valid := req.Valid(p, q);
    FirstNotAdmitted(r.stored, valid);
    PrefixAdmitted(r.stored, valid, k - 1);
    hide AdmitsAll, Admits, Reach;
    ValidUpTo(req, p, q, k - 1);
    e := req.Places(p, q)[k - 1];
    FlawsOfABatch(req, p, e);
    CleanUpTo(req, stored, r, p, e);
  }

  lemma RoundWithDuplicate(req: Request, stored: seq<Doc>, r: Report, p: nat, q: nat) returns (e: nat)
    requires p <= q <= |req.docs| && Clean(req, stored, r, p) && !AdmitsAll(r.stored, req.Valid(p, q))
    requires forall i | p <= i < q - 1 :: req.docs[i].flaw.None?
    ensures p <= e < q && FirstRefused(req, stored, e) && req.docs[e].flaw.None?
    ensures var s := req.OneByOne(stored, e + 1);
            Round(req, r, p, q, true) == s.(errors := req.Flaws(p, q) + s.errors)
  {
    var valid, places, k := req.Valid(p, q), req.Places(p, q), Reach(r.stored, req.Valid(p, q), true);
    e := FirstDuplicate(req, stored, r, p, q, k);
    hide AdmitsAll, Admits, Reach, FirstRefused;
    var start := r.(errors := req.Flaws(p, q));
    assert r.errors + req.Flaws(p, q) == start.errors;
    assert valid[..k] == valid[..k - 1] + [valid[k - 1]] && places[..k] == places[..k - 1] + [places[k - 1]];
    SinglesAppend(start, valid[..k - 1], places[..k - 1], valid[k - 1], places[k - 1]);
    SinglesAllAdmitted(start, valid[..k - 1], places[..k - 1]);
  }

  /** How an ordered batch ends, the last one when `done`. */
  ghost predicate Filled(req: Request, p: nat, q: nat, batchSize: nat, done: bool) {
    && p <= q <= |req.docs| && q <= p + batchSize
    && (done ==> q == |req.docs|)
    && (!done ==> q == p + batchSize || (p < q && req.docs[q - 1].flaw.Some?))
    && forall i | p <= i < q - 1 :: req.docs[i].flaw.None?
  }

  lemma MultiplesApart(m: nat, n: nat, batchSize: nat)
    ensures m < n ==> m * batchSize + batchSize <= n * batchSize
  {
    if m < n {
      var d := n - m - 1;
      assert n * batchSize == m * batchSize + batchSize + d * batchSize;
    }
  }

  lemma BatchEndIs(e: nat, batchSize: nat, rounds: nat)
    requires batchSize > 0 && rounds * batchSize <= e < rounds * batchSize + batchSize
    ensures BatchEnd(e, batchSize) == rounds * batchSize + batchSize
  {
    var m := e / batchSize;
    MultiplesApart(m, rounds, batchSize);
    MultiplesApart(rounds, m, batchSize);
    assert (m + 1) * batchSize == m * batchSize + batchSize;
  }

  /** A clean round: it ends at a flawed document with everything before it stored, or stays clean. */
  lemma CleanRoundAdmitted(req: Request, stored: seq<Doc>, batchSize: nat, r: Report, p: nat, q: nat, done: bool)
    requires batchSize > 0 && Filled(req, p, q, batchSize, done) && Clean(req, stored, r, p)
             && AdmitsAll(r.stored, req.Valid(p, q))
    ensures var r' := Round(req, r, p, q, true);
            if r'.errors == [] then Clean(req, stored, r', q) && (!done ==> q == p + batchSize)
            else OrderedOutcome(req, stored, batchSize, r')
  {
    var valid, places := req.Valid(p, q), req.Places(p, q);
    var start := r.(errors := r.errors + req.Flaws(p, q));
    WholeBatch(start, valid, places, true);
    FlawsOfABatch(req, p, q);
    var r' := Round(req, r, p, q, true);
    assert r' == Report(r.stored + valid, r.n + |valid|, req.Flaws(p, q));
    if r'.errors == [] {
      CleanUpTo(req, stored, r, p, q);
    } else {
      FlawEndsIt(req, stored, batchSize, r, p, q, r');
    }
  }

  lemma FlawEndsIt(req: Request, stored: seq<Doc>, batchSize: nat, r: Report, p: nat, q: nat, r': Report)
    requires batchSize > 0 && p < q <= |req.docs| && Clean(req, stored, r, p) && AdmitsAll(r.stored, req.Valid(p, q))
    requires req.docs[q - 1].flaw.Some? && req.Flaws(p, q - 1) == []
    requires r' == Report(r.stored + req.Valid(p, q), r.n + |req.Valid(p, q)|, req.Flaws(p, q))
    ensures OrderedOutcome(req, stored, batchSize, r')
  {
    CleanUpTo(req, stored, r, p, q - 1);
    assert FirstRefused(req, stored, q - 1);
    assert r' == req.OneByOne(stored, q) && req.OneByOne(stored, q).stored == req.OneByOne(stored, q - 1).stored;
    OutcomeAtFirst(req, stored, batchSize, r', q - 1);
  }

  /** After its first duplicate a batch is over, with or without the flawed document that ended it. */
  lemma AfterDuplicate(req: Request, stored: seq<Doc>, batchSize: nat, p: nat, q: nat, done: bool, e: nat)
    requires batchSize > 0 && Filled(req, p, q, batchSize, done) && BatchEnd(e, batchSize) == p + batchSize
    requires p <= e < q && FirstRefused(req, stored, e) && req.docs[e].flaw.None?
    ensures var s := req.OneByOne(stored, e + 1);
            After(req, stored, batchSize, s.(errors := req.Flaws(p, q) + s.errors), q, e)
  {
    hide BatchEnd, AdmitsAll, Admits, Request.Flaws;
    var s := req.OneByOne(stored, e + 1);
    var r := s.(errors := req.Flaws(p, q) + s.errors);
    FirstErrorIsAlone(req, stored, e);
    FlawsOfABatch(req, p, q);
    hide FirstRefused, Request.OneByOne;
    if req.Flaws(p, q) == [] {
      assert [] + s.errors == s.errors;
      assert Tidy(req, stored, batchSize, r, q, e);
    } else {
      assert Messy(req, stored, batchSize, r, e);
    }
  }

  lemma CleanRoundDuplicate(req: Request, stored: seq<Doc>, batchSize: nat, r: Report, p: nat, q: nat, rounds: nat,
                            done: bool)
    requires batchSize > 0 && Filled(req, p, q, batchSize, done) && p == rounds * batchSize
    requires Clean(req, stored, r, p) && !AdmitsAll(r.stored, req.Valid(p, q))
    ensures exists e: nat :: After(req, stored, batchSize, Round(req, r, p, q, true), q, e)
  {
    hide FirstRefused, BatchEnd, Round, AdmitsAll, Clean, After, Request.OneByOne, Request.Flaws, Request.Valid;
    var e := RoundWithDuplicate(req, stored, r, p, q);
    BatchEndIs(e, batchSize, rounds);
    AfterDuplicate(req, stored, batchSize, p, q, done, e);
  }

  lemma {:induction false} SinglesGrow(r: Report, batch: seq<Doc>, places: seq<nat>)
    requires |batch| == |places|
    ensures var r' := Singles(r, batch, places);
            r.stored <= r'.stored && r.errors <= r'.errors
            && |r'.stored| + |r'.errors| == |r.stored| + |r.errors| + |batch|
            && r'.n + |r.stored| == r.n + |r'.stored|
    decreases |batch|
  {
    if batch != [] {
      hide Admits;
      SinglesGrow(Offer(r, places[0], batch[0]), batch[1..], places[1..]);
    }
  }

  lemma {:induction false} ValidOrFlawed(req: Request, p: nat, q: nat)
    requires p <= q <= |req.docs|
    ensures |req.Valid(p, q)| + |req.Flaws(p, q)| == q - p
    decreases q
  {
    if p < q { ValidOrFlawed(req, p, q - 1); }
  }

  lemma RoundGrows(req: Request, r: Report, p: nat, q: nat, ordered: bool)
    requires p <= q <= |req.docs|
    ensures var r' := Round(req, r, p, q, ordered);
            r.stored <= r'.stored && r.errors <= r'.errors && r'.n + |r.stored| == r.n + |r'.stored|
            && (p < q ==> |r'.stored| + |r'.errors| > |r.stored| + |r.errors|)
            && (p == q ==> r' == r)
  {
    var k := Reach(r.stored, req.Valid(p, q), ordered);
    var start := r.(errors := r.errors + req.Flaws(p, q));
    SinglesGrow(start, req.Valid(p, q)[..k], req.Places(p, q)[..k]);
    ValidOrFlawed(req, p, q);
    assert p == q ==> start == r;
  }

  /** Once a duplicate was met, a round changes nothing when no document is left, and makes a mess otherwise. */
  lemma AfterRound(req: Request, stored: seq<Doc>, batchSize: nat, r: Report, p: nat, q: nat, done: bool, e: nat)
    requires batchSize > 0 && Filled(req, p, q, batchSize, done) && After(req, stored, batchSize, r, p, e)
    ensures var r' := Round(req, r, p, q, true);
            After(req, stored, batchSize, r', q, e) && (q == |req.docs| || Messy(req, stored, batchSize, r', e))
  {
    var r' := Round(req, r, p, q, true);
    RoundGrows(req, r, p, q, true);
    FirstErrorIsAlone(req, stored, e);
    SameSizes(r, req.OneByOne(stored, e + 1));
    hide FirstRefused, Round;
    if p < q {
      assert Messy(req, stored, batchSize, r', e);
    }
  }

  /** One round of an ordered command: the loop may end after a batch that went in whole, or goes on. */
  lemma OrderedRound(req: Request, stored: seq<Doc>, batchSize: nat, r: Report, p: nat, q: nat, rounds: nat, done: bool)
    requires batchSize > 0 && Filled(req, p, q, batchSize, done)
             && OrderedInv(req, stored, batchSize, r, p, rounds, false)
    ensures var r' := Round(req, r, p, q, true);
            if r'.errors != [] && AdmitsAll(r.stored, req.Valid(p, q)) then OrderedOutcome(req, stored, batchSize, r')
            else OrderedInv(req, stored, batchSize, r', q, rounds + 1, done)
  {
    var r' := Round(req, r, p, q, true);
    hide Round, AdmitsAll, Filled, After, OrderedOutcome;
    if Clean(req, stored, r, p) && p == rounds * batchSize {
      if AdmitsAll(r.stored, req.Valid(p, q)) {
        CleanRoundAdmitted(req, stored, batchSize, r, p, q, done);
        assert (rounds + 1) * batchSize == rounds * batchSize + batchSize;
      } else {
        CleanRoundDuplicate(req, stored, batchSize, r, p, q, rounds, done);
        var e: nat :| After(req, stored, batchSize, r', q, e);
        AfterReported(req, stored, batchSize, r', q, e);
      }
    } else {
      var e: nat :| After(req, stored, batchSize, r, p, e);
      AfterRound(req, stored, batchSize, r, p, q, done, e);
      AfterIsOutcome(req, stored, batchSize, r', q, e);
    }
  }

  lemma AfterReported(req: Request, stored: seq<Doc>, batchSize: nat, r: Report, p: nat, e: nat)
    requires batchSize > 0 && After(req, stored, batchSize, r, p, e)
    ensures r.errors != []
  {}

  lemma OrderedEnd(req: Request, stored: seq<Doc>, batchSize: nat, r: Report, rounds: nat)
    requires batchSize > 0 && OrderedInv(req, stored, batchSize, r, |req.docs|, rounds, true)
    ensures OrderedOutcome(req, stored, batchSize, r)
  {
    if Clean(req, stored, r, |req.docs|) {
      CleanIsOutcome(req, stored, batchSize, r);
    } else {
      var e: nat :| After(req, stored, batchSize, r, |req.docs|, e);
      AfterIsOutcome(req, stored, batchSize, r, |req.docs|, e);
    }
  }

  lemma NoneRefusedNoErrors(req: Request, stored: seq<Doc>, q: nat)
    requires q <= |req.docs| && forall i: nat | i < q :: !req.Refused(stored, i)
    ensures req.OneByOne(stored, q).errors == []
  {
    var errors := req.OneByOne(stored, q).errors;
    if errors != [] {
      RefusedExactlyReported(req, stored, q, errors[0]);
    }
  }

  lemma Beginning(req: Request, stored: seq<Doc>, batchSize: nat)
    requires batchSize > 0
    ensures Same(Report(stored, 0, []), req.OneByOne(stored, 0))
    ensures OrderedInv(req, stored, batchSize, Report(stored, 0, []), 0, 0, false)
  {
    assert Clean(req, stored, Report(stored, 0, []), 0);
  }

  lemma SortedOutcome(req: Request, stored: seq<Doc>, batchSize: nat, r: Report)
    requires batchSize > 0 && OrderedOutcome(req, stored, batchSize, r)
    ensures OrderedOutcome(req, stored, batchSize, r.(errors := SortByIndex(r.errors)))
  {
    var sorted := r.(errors := SortByIndex(r.errors));
    forall e: nat | FirstRefused(req, stored, e)
      ensures Same(sorted, req.OneByOne(stored, e + 1)) <==> Same(r, req.OneByOne(stored, e + 1))
    {}
    if forall i: nat | i < |req.docs| :: !req.Refused(stored, i) {
      NoneRefusedNoErrors(req, stored, |req.docs|);
    }
  }

  /** An ordered command stops at its first refused document exactly when StopsThere. */
  lemma OrderedStopsExactlyWhen(o: Command)
    requires o.batchSize > 0 && forall k :: !o.faults(k)
    ensures OrderedOutcome(o.req, o.stored, o.batchSize, Sorted(OrderedReference(o)))
  {
    Beginning(o.req, o.stored, o.batchSize);
    hide OrderedInv, OrderedOutcome;
    OrderedFrom(o, 0);
    SortedOutcome(o.req, o.stored, o.batchSize, OrderedReference(o));
  }

  lemma {:induction false} OrderedFrom(o: Command, k: nat)
    requires o.batchSize > 0 && forall n :: !o.faults(n)
    requires var s := Rounds(o, k);
             OrderedInv(o.req, o.stored, o.batchSize, s.report, s.next, k, s.next == |o.req.docs|)
    requires Stops(o, k) ==> Rounds(o, k).next == |o.req.docs|
    ensures OrderedOutcome(o.req, o.stored, o.batchSize, Until(o, k))
    decreases |o.req.docs| - Rounds(o, k).next
  {
    var s, n := Rounds(o, k), |o.req.docs|;
    hide OrderedInv, OrderedOutcome, Round, AdmitsAll, CallsOf;
    if s.next == n {
      OrderedEnd(o.req, o.stored, o.batchSize, s.report, k);
    } else {
      var q := FillEnd(o.req, s.next, o.batchSize);
      RoundAfter(o, k);
      assert Filled(o.req, s.next, q, o.batchSize, q == n);
      OrderedRound(o.req, o.stored, o.batchSize, s.report, s.next, q, k, q == n);
      var r' := Round(o.req, s.report, s.next, q, true);
      if !(r'.errors != [] && AdmitsAll(s.report.stored, o.req.Valid(s.next, q))) {
        OrderedFrom(o, k + 1);
      }
    }
  }

  lemma RoundOfOne(req: Request, r: Report, p: nat)
    requires p < |req.docs| && req.docs[p].flaw.None?
    ensures FillEnd(req, p, 1) == p + 1 && req.Valid(p, p + 1) == [req.At(p)]
    ensures AdmitsAll(r.stored, [req.At(p)]) <==> Admits(r.stored, req.At(p))
    ensures Round(req, r, p, p + 1, true) == Offer(r, p, req.At(p))
  {
    var batch, places := [req.At(p)], [p];
    assert req.Valid(p, p + 1) == [] + batch && req.Places(p, p + 1) == [] + places;
    assert req.Flaws(p, p + 1) == req.Flaws(p, p) == [];
    assert r.(errors := r.errors + []) == r;
    SingleAdmitted(r.stored, req.At(p));
    assert Reach(r.stored + batch, [], true) == 0;
    assert batch[..1] == batch && places[..1] == places && batch[1..] == [] && places[1..] == [];
    SinglesAppend(r, [], [], req.At(p), p);
    assert [] + batch == batch && [] + places == places;
    assert Partial(req, r, p, p + 1, 1) == Singles(r, batch, places);
  }

  lemma GoesOn(o: Command, k: nat)
    requires o.batchSize > 0
    ensures Until(o, k) == if Stops(o, k) then Rounds(o, k).report else Until(o, k + 1)
  {
    hide Rounds, Stops;
  }

  /** A valid document, a duplicate and another valid one in batches of one. */
  lemma PastADuplicate(o: Command, d: Doc, d': Doc)
    requires o.stored == [] && o.batchSize == 1 && forall k :: !o.faults(k)
    requires |o.req.docs| == 3 && o.req.At(0) == d && o.req.At(1) == d && o.req.At(2) == d'
    requires forall i | 0 <= i < 3 :: o.req.docs[i].flaw.None?
    requires Admits([], d) && Admits([d], d') && !Admits([d], d)
    ensures OrderedReference(o) == Report([d, d'], 2, [WriteError(1, DuplicateKeyInsert)])
  {
    hide AdmitsAll, Admits, Round, FillEnd, Request.At, Request.Valid, Until, CallsOf;
    var one := [WriteError(1, DuplicateKeyInsert)];
    RoundOfOne(o.req, Report([], 0, []), 0);
    RoundOfOne(o.req, Report([d], 1, []), 1);
    RoundOfOne(o.req, Report([d], 1, one), 2);
    assert [] + [d] == [d] && [d] + [d'] == [d, d'] && [] + one == one;
    assert Rounds(o, 0).report == Report([], 0, []) && Rounds(o, 0).next == 0;
    assert Rounds(o, 1).report == Report([d], 1, []) && Rounds(o, 1).next == 1;
    assert Rounds(o, 2).report == Report([d], 1, one) && Rounds(o, 2).next == 2;
    assert Rounds(o, 3).report == Report([d, d'], 2, one) && Rounds(o, 3).next == 3;
    hide Rounds;
    GoesOn(o, 0);
    GoesOn(o, 1);
    GoesOn(o, 2);
    GoesOn(o, 3);
  }

  /** With batches of one, an ordered command goes on past a duplicate and stores the document after it. */
  lemma OrderedMayGoOn(o: Command)
    requires o.stored == [] && o.batchSize == 1 && forall k :: !o.faults(k)
    requires o.req.docs == [Doc(Some(1), {}, None), Doc(Some(1), {}, None), Doc(Some(2), {}, None)]
    ensures FirstRefused(o.req, [], 1) && !StopsThere(o.req, 1, 1)
    ensures OrderedReference(o)
            == Report([o.req.docs[0], o.req.docs[2]], 2, [WriteError(1, DuplicateKeyInsert)])
  {
    var req := o.req;
    var d, d' := req.docs[0], req.docs[2];
    assert req.OneByOne([], 0).stored == [];
    assert req.OneByOne([], 1).stored == [d];
    assert Conflict([d][0], d) && !Conflict([d][0], d');
    assert FirstRefused(req, [], 1);
    assert BatchEnd(1, 1) == 2;
    hide OrderedReference;
    PastADuplicate(o, d, d');
  }

  /** A round over one flawed document only records it. */
  lemma RoundOfFlaw(req: Request, r: Report, p: nat)
    requires p < |req.docs| && req.docs[p].flaw.Some?
    ensures FillEnd(req, p, 1) == p + 1 && req.Valid(p, p + 1) == []
    ensures Round(req, r, p, p + 1, true) == r.(errors := r.errors + [WriteError(p, req.docs[p].flaw.value)])
  {
    assert req.Valid(p, p + 1) == req.Valid(p, p) == [];
    assert req.Flaws(p, p + 1) == [] + [WriteError(p, req.docs[p].flaw.value)];
    assert req.Valid(p, p + 1)[..0] == [] && req.Places(p, p + 1)[..0] == [];
  }

  /** It is the batch call itself that lets an ordered command stop: after a flawed document the same command goes
      on or stops as that call, even over no document, fails or not. */
  lemma FailedBatchCallGoesOn(o: Command)
    requires o.stored == [] && o.batchSize == 1 && forall k | k != o.calls :: !o.faults(k)
    requires o.req.docs == [Doc(Some(1), {}, Some(BadValue)), Doc(Some(2), {}, None)]
    ensures OrderedReference(o) == if o.faults(o.calls) then Report([o.req.docs[1]], 1, [WriteError(0, BadValue)])
                                   else Report([], 0, [WriteError(0, BadValue)])
  {
    var one, d := [WriteError(0, BadValue)], o.req.docs[1];
    assert Admits([], d);
    hide Admits, Round, FillEnd, Request.Valid, Until;
    RoundOfFlaw(o.req, Report([], 0, []), 0);
    RoundOfOne(o.req, Report([], 0, one), 1);
    assert [] + one == one && [] + [d] == [d];
    assert Rounds(o, 0).report == Report([], 0, []) && Rounds(o, 0).next == 0 && Rounds(o, 0).calls == o.calls;
    assert Rounds(o, 1).report == Report([], 0, one) && Rounds(o, 1).next == 1;
    assert Rounds(o, 2).report == Report([d], 1, one) && Rounds(o, 2).next == 2;
    hide Rounds;
    GoesOn(o, 0);
    GoesOn(o, 1);
    GoesOn(o, 2);
  }

  /** The loop of an ordered command after some rounds. */
  ghost predicate OrderedSoFar(o: Command, s: Progress, rounds: nat)
    requires o.batchSize > 0
  {
    && s == Rounds(o, rounds)
    && Until(o, rounds) == OrderedReference(o)
    && (s.next < |o.req.docs| ==> OnTheWay(o, rounds))
  }

  lemma OrderedStart(o: Command)
    requires o.batchSize > 0
    ensures OrderedSoFar(o, Progress(Report(o.stored, 0, []), 0, o.calls), 0)
  {}

  /** One more round, which stops the loop or leaves it on its way. */
  lemma AnotherRound(o: Command, s: Progress, rounds: nat)
    requires o.batchSize > 0 && s.next <= |o.req.docs| && OrderedSoFar(o, s, rounds)
    ensures var q := FillEnd(o.req, s.next, o.batchSize);
            var r' := Round(o.req, s.report, s.next, q, true);
            var s' := Progress(r', q, s.calls + CallsOf(o.req, s.report, s.next, q, true, o.faults, s.calls));
            if r'.errors != [] && GoesInWhole(o.req, s.report, s.next, q, o.faults, s.calls) then
              r' == OrderedReference(o)
            else OrderedSoFar(o, s', rounds + 1)
  {
    hide Round, GoesInWhole, CallsOf, Rounds, Until;
    RoundAfter(o, rounds);
    assert Stops(o, rounds) ==> s.next == |o.req.docs|;
    NextRound(o, rounds);
    GoesOn(o, rounds + 1);
  }

  lemma BreaksOff(o: Command, s: Progress, rounds: nat, now: seq<Doc>)
    requires o.batchSize > 0 && s.next <= |o.req.docs| && OrderedSoFar(o, s, rounds)
    requires exists j: nat :: BrokenOffAt(o, s, j, now)
    ensures BrokenOff(o, now) && exists k :: o.faults(k)
  {
    var j: nat :| BrokenOffAt(o, s, j, now);
    assert s.next < |o.req.docs|;
  }

  lemma StoppedAfter(o: Command, s: Progress, rounds: nat)
    requires o.batchSize > 0 && OrderedSoFar(o, s, rounds) && s.next == |o.req.docs|
    ensures s.report == OrderedReference(o)
  {}

  lemma SortedIs(r: Report)
    ensures Sorted(r) == Report(r.stored, r.n, SortByIndex(r.errors))
  {}

  lemma Failing(o: Command, r: Report, p: nat, q: nat, ordered: bool, calls: nat, now: seq<Doc>)
    requires p <= q <= |o.req.docs| && (ordered ==> q == FillEnd(o.req, p, o.batchSize))
    requires exists j: nat | FailsAt(o.req, r, p, q, ordered, o.faults, calls, j) ::
               now == Partial(o.req, r, p, q, j).stored
    ensures exists k :: o.faults(k)
    ensures ordered ==> exists j: nat :: BrokenOffAt(o, Progress(r, p, calls), j, now)
    ensures exists j: nat | j < |o.req.Valid(p, q)| :: now == Partial(o.req, r, p, q, j).stored
  {
    hide FillEnd, Partial, GoesInWhole;
    var j: nat :| FailsAt(o.req, r, p, q, ordered, o.faults, calls, j) && now == Partial(o.req, r, p, q, j).stored;
    assert ordered ==> BrokenOffAt(o, Progress(r, p, calls), j, now);
  }

  /** What MsgInsert promises of its report and of the collection afterwards. */
  ghost predicate Promised(o: Command, ordered: bool, failed: bool, r: Report)
    requires o.batchSize > 0
  {
    && (failed ==> exists k :: o.faults(k))
    // n counts what was stored, in either kind of command
    && (!failed ==> o.stored <= r.stored && |r.stored| == |o.stored| + r.n)
    // an unordered command is one-by-one insertion, whatever the batch size, or such insertion broken off
    && (!ordered && !failed ==> r == o.req.OneByOne(o.stored, |o.req.docs|))
    && (!ordered && failed ==> exists k: nat | k <= |o.req.docs| :: r.stored == o.req.OneByOne(o.stored, k).stored)
    // an ordered command does what its reference does, or is broken off at a call that fails
    && (ordered && !failed ==> r == Sorted(OrderedReference(o)))
    && (ordered && failed ==> BrokenOff(o, r.stored))
    // and it stops at the first refused document exactly when StopsThere
    && (ordered && (forall k :: !o.faults(k)) ==> OrderedOutcome(o.req, o.stored, o.batchSize, r))
  }

  /** The loop after some rounds. */
  ghost predicate SoFar(o: Command, ordered: bool, s: Progress, rounds: nat)
    requires o.batchSize > 0
  {
    && s.next <= |o.req.docs|
    && o.stored <= s.report.stored && |s.report.stored| == |o.stored| + s.report.n
    && if ordered then OrderedSoFar(o, s, rounds) else Same(s.report, o.req.OneByOne(o.stored, s.next))
  }

  lemma Started(o: Command, ordered: bool)
    requires o.batchSize > 0
    ensures SoFar(o, ordered, Progress(Report(o.stored, 0, []), 0, o.calls), 0)
  {
    hide OrderedSoFar;
    Beginning(o.req, o.stored, o.batchSize);
    OrderedStart(o);
  }

  lemma EndsOrdered(o: Command, r: Report)
    requires o.batchSize > 0 && r == OrderedReference(o) && o.stored <= r.stored && |r.stored| == |o.stored| + r.n
    ensures Promised(o, true, false, Sorted(r))
  {
    if forall k :: !o.faults(k) { OrderedStopsExactlyWhen(o); }
    SortedIs(r);
    hide OrderedReference, OrderedOutcome, Sorted;
  }

  lemma Ended(o: Command, ordered: bool, s: Progress, rounds: nat)
    requires o.batchSize > 0 && SoFar(o, ordered, s, rounds) && s.next == |o.req.docs|
    ensures Promised(o, ordered, false, Sorted(s.report))
  {
    hide OrderedSoFar, OrderedReference, OrderedOutcome, Same, Request.OneByOne;
    if ordered {
      StoppedAfter(o, s, rounds);
      EndsOrdered(o, s.report);
    } else {
      SortedReport(o.req, o.stored, s.report);
    }
  }

  lemma FailedIsNotWhole(req: Request, r: Report, p: nat, q: nat, ordered: bool, faults: nat -> bool, calls: nat,
                         failed: bool, whole: bool, r': Report, calls': nat)
    requires p <= q <= |req.docs| && RoundMade(req, r, p, q, ordered, faults, calls, failed, whole, r', calls')
    ensures failed ==> !whole
  {}

  /** A round that no backend call breaks off ends the command or leaves the loop on its way. */
  lemma WentOn(o: Command, ordered: bool, s: Progress, q: nat, rounds: nat, whole: bool, r': Report, calls: nat)
    requires o.batchSize > 0 && SoFar(o, ordered, s, rounds)
    requires s.next <= q <= |o.req.docs| && (ordered ==> q == FillEnd(o.req, s.next, o.batchSize))
    requires RoundMade(o.req, s.report, s.next, q, ordered, o.faults, s.calls, false, whole, r', calls)
    ensures if ordered && r'.errors != [] && whole then Promised(o, ordered, false, Sorted(r'))
            else SoFar(o, ordered, Progress(r', q, calls), rounds + 1)
  {
    hide OrderedSoFar, OrderedReference, Promised, Round, GoesInWhole, CallsOf, Sorted, Same, Request.OneByOne, FillEnd;
    RoundGrows(o.req, s.report, s.next, q, ordered);
    if ordered {
      AnotherRound(o, s, rounds);
      if r'.errors != [] && whole { EndsOrdered(o, r'); }
    } else {
      RoundIsOneByOne(o.req, o.stored, s.report, s.next, q);
    }
  }

  /** A round that a backend call breaks off. */
  lemma BrokeOff(o: Command, ordered: bool, s: Progress, q: nat, rounds: nat, r: Report, calls: nat)
    requires o.batchSize > 0 && SoFar(o, ordered, s, rounds)
    requires s.next <= q <= |o.req.docs| && (ordered ==> q == FillEnd(o.req, s.next, o.batchSize))
    requires RoundMade(o.req, s.report, s.next, q, ordered, o.faults, s.calls, true, false, r, calls)
    ensures Promised(o, ordered, true, r)
  {
    hide GoesInWhole, CallsOf, Round, OrderedSoFar, OrderedReference, OrderedOutcome, FailsAt, Partial, Same,
         Request.OneByOne, FillEnd, BrokenOff, BrokenOffAt, Sorted;
    Failing(o, s.report, s.next, q, ordered, s.calls, r.stored);
    if ordered {
      BreaksOff(o, s, rounds, r.stored);
    } else {
      FailedMidway(o.req, o.stored, s.report, s.next, q, r.stored);
    }
  }

  /** The batching loop of MsgInsert. */
  method MsgInsert(c: Collection, req: Request, batchSize: nat, ordered: bool)
    returns (failed: bool, n: nat, errors: seq<WriteError>)
    requires batchSize >= 1
    modifies c
    ensures var o := Command(req, old(c.stored), batchSize, c.faults, old(c.calls));
            Promised(o, ordered, failed, Report(c.stored, n, errors))
  {
    ghost var o, rounds: nat, broken := Command(req, c.stored, batchSize, c.faults, c.calls), 0, false;
    failed, n, errors := false, 0, [];
    var next, done := 0, false;
    Started(o, ordered);
    hide *;
    while !done
      invariant next <= |req.docs| && (done ==> next == |req.docs|) && !failed && !broken
      invariant SoFar(o, ordered, Progress(Report(c.stored, n, errors), next, c.calls), rounds)
      decreases |req.docs| - next, !done
    {
      ghost var s := Progress(Report(c.stored, n, errors), next, c.calls);
      var batch, places, whole;
      batch, places, next, errors, done := FillBatch(req, next, batchSize, ordered, errors);
      failed, whole, n, errors := InsertBatch(c, req, s.next, next, ordered, batch, places, n, errors, s.report);
      assert failed ==> !whole by { FailedIsNotWhole(req, s.report, s.next, next, ordered, o.faults, s.calls, failed,
                                                      whole, Report(c.stored, n, errors), c.calls); }
      if failed {
        BrokeOff(o, ordered, s, next, rounds, Report(c.stored, n, errors), c.calls);
        return;
      }
      WentOn(o, ordered, s, next, rounds, whole, Report(c.stored, n, errors), c.calls);
      rounds := rounds + 1;
      if whole && ordered && errors != [] {
        broken := true;
        break;
      }
    }
    if !broken { Ended(o, ordered, Progress(Report(c.stored, n, errors), next, c.calls), rounds); }
    SortedIs(Report(c.stored, n, errors));
    errors := SortByIndex(errors);
  }

  // ---- what is stored ----

  /** The id document i is stored under: its own, or the one generated for it. */
  function IdOf(req: Request, i: nat): nat
    requires i < |req.docs|
  {
    if req.docs[i].id.Some? then req.docs[i].id.value else req.newId(i)
  }

  /** A stored document comes from document i of the command. */
  predicate ComesFrom(req: Request, d: Doc, i: nat) {
    i < |req.docs| && d.id == Some(IdOf(req, i)) && d.entries == req.docs[i].entries && req.docs[i].flaw.None?
  }

  /** What was added to a collection comes from the documents at the given places, in order, all before `end`. */
  ghost predicate Added(req: Request, before: seq<Doc>, stored: seq<Doc>, places: seq<nat>, end: nat) {
    && before <= stored && |stored| == |before| + |places|
    && (forall j | 0 <= j < |places| :: places[j] < end && ComesFrom(req, stored[|before| + j], places[j]))
    && forall i, j | 0 <= i < j < |places| :: places[i] < places[j]
  }

  lemma OfferAdds(req: Request, before: seq<Doc>, r: Report, places: seq<nat>, end: nat, i: nat, d: Doc)
    returns (after: seq<nat>)
    requires Added(req, before, r.stored, places, end) && end <= i && ComesFrom(req, d, i)
    ensures Added(req, before, Offer(r, i, d).stored, after, i + 1)
  {
    hide Admits, ComesFrom;
    after := if Admits(r.stored, d) then places + [i] else places;
  }

  lemma Requested(req: Request, i: nat)
    requires i < |req.docs| && req.docs[i].flaw.None?
    ensures ComesFrom(req, req.At(i), i)
  {}

  /** One-by-one insertion adds only documents of the command, each at most once. */
  lemma {:induction false} OneByOneAdds(req: Request, stored: seq<Doc>, k: nat) returns (places: seq<nat>)
    requires k <= |req.docs|
    ensures Added(req, stored, req.OneByOne(stored, k).stored, places, k)
  {
    if k == 0 { return []; }
    places := OneByOneAdds(req, stored, k - 1);
    var r := req.OneByOne(stored, k - 1);
    hide Admits, ComesFrom, Offer, Request.At;
    if req.docs[k - 1].flaw.None? {
      Requested(req, k - 1);
      places := OfferAdds(req, stored, r, places, k - 1, k - 1, req.At(k - 1));
    }
  }

  /** The place behind the j-th valid document of a batch. */
  function Behind(req: Request, p: nat, q: nat, j: nat): nat
    requires p <= q <= |req.docs| && j <= |req.Valid(p, q)|
  {
    if j == 0 then p else req.Places(p, q)[j - 1] + 1
  }

  lemma BehindInBatch(req: Request, p: nat, q: nat, j: nat)
    requires p <= q <= |req.docs| && j <= |req.Valid(p, q)|
    ensures Behind(req, p, q, j) <= q
    ensures j > 0 ==>
              var i := req.Places(p, q)[j - 1];
              && Behind(req, p, q, j - 1) <= i && Behind(req, p, q, j) == i + 1
              && ComesFrom(req, req.Valid(p, q)[j - 1], i)
  {
    if j > 0 {
      ValidUpTo(req, p, q, j - 1);
      Requested(req, req.Places(p, q)[j - 1]);
      if j > 1 { PlacesAscend(req, p, q, j - 2); }
      hide ComesFrom, Request.At;
    }
  }

  lemma PartialNext(req: Request, r: Report, p: nat, q: nat, j: nat)
    requires p <= q <= |req.docs| && 0 < j <= |req.Valid(p, q)|
    ensures Partial(req, r, p, q, j)
            == Offer(Partial(req, r, p, q, j - 1), req.Places(p, q)[j - 1], req.Valid(p, q)[j - 1])
  {
    hide Request.Valid, Request.Places, Singles, Offer, Reach;
    TrySingle(r.(errors := r.errors + req.Flaws(p, q)), req.Valid(p, q), req.Places(p, q), j - 1, false);
  }

  /** So do the documents of a batch that are tried singly. */
  lemma {:induction false} PartialAdds(req: Request, before: seq<Doc>, r: Report, p: nat, q: nat, j: nat,
                                       known: seq<nat>)
    returns (places: seq<nat>)
    requires p <= q <= |req.docs| && j <= |req.Valid(p, q)| && Added(req, before, r.stored, known, p)
    ensures Added(req, before, Partial(req, r, p, q, j).stored, places, Behind(req, p, q, j))
  {
    if j == 0 {
      assert req.Valid(p, q)[..0] == [] && req.Places(p, q)[..0] == [];
      return known;
    }
    places := PartialAdds(req, before, r, p, q, j - 1, known);
    hide Added, Offer, Partial, Behind, Request.Valid, Request.Places, ComesFrom;
    BehindInBatch(req, p, q, j);
    PartialNext(req, r, p, q, j);
    places := OfferAdds(req, before, Partial(req, r, p, q, j - 1), places, Behind(req, p, q, j - 1),
                        req.Places(p, q)[j - 1], req.Valid(p, q)[j - 1]);
  }

  lemma AddedBefore(req: Request, before: seq<Doc>, stored: seq<Doc>, places: seq<nat>, end: nat, later: nat)
    requires Added(req, before, stored, places, end) && end <= later
    ensures Added(req, before, stored, places, later)
  {}

  lemma {:induction false} PlacesAscend(req: Request, p: nat, q: nat, j: nat)
    requires p <= q <= |req.docs| && j + 1 < |req.Places(p, q)|
    ensures req.Places(p, q)[j] < req.Places(p, q)[j + 1]
    decreases q
  {
    if j + 1 < |req.Places(p, q - 1)| {
      PlacesAscend(req, p, q - 1, j);
    } else {
      ValidUpTo(req, p, q - 1, j);
    }
  }

  lemma NothingAdded(req: Request, stored: seq<Doc>)
    ensures Added(req, stored, stored, [], 0)
  {}

  lemma RoundAdds(req: Request, before: seq<Doc>, r: Report, p: nat, q: nat, known: seq<nat>) returns (places: seq<nat>)
    requires p <= q <= |req.docs| && Added(req, before, r.stored, known, p)
    ensures Added(req, before, Round(req, r, p, q, true).stored, places, q)
  {
    hide Added, Partial, Reach, Behind, ComesFrom, Request.Valid, Request.Places;
    var reached := Reach(r.stored, req.Valid(p, q), true);
    places := PartialAdds(req, before, r, p, q, reached, known);
    BehindInBatch(req, p, q, reached);
    AddedBefore(req, before, Round(req, r, p, q, true).stored, places, Behind(req, p, q, reached), q);
  }

  lemma {:induction false} RoundsAdd(o: Command, k: nat) returns (places: seq<nat>)
    ensures Added(o.req, o.stored, Rounds(o, k).report.stored, places, Rounds(o, k).next)
  {
    hide Added, FillEnd, Round, CallsOf;
    if k == 0 {
      NothingAdded(o.req, o.stored);
      return [];
    }
    places := RoundsAdd(o, k - 1);
    var s := Rounds(o, k - 1);
    places := RoundAdds(o.req, o.stored, s.report, s.next, FillEnd(o.req, s.next, o.batchSize), places);
  }

  /** Whatever a command stores, in either kind and also when it is broken off, comes from its documents, each at
      most once and in order, with the entries they had and the id they had or were given. */
  lemma StoredComeFromDocuments(o: Command, ordered: bool, failed: bool, r: Report)
    requires o.batchSize > 0 && Promised(o, ordered, failed, r)
    ensures exists places :: Added(o.req, o.stored, r.stored, places, |o.req.docs|)
  {
    hide Added, OrderedOutcome, BrokenOffAt, OnTheWay, Rounds, Until;
    var places: seq<nat>;
    if !ordered {
      var k: nat :| k <= |o.req.docs| && r.stored == o.req.OneByOne(o.stored, k).stored;
      places := OneByOneAdds(o.req, o.stored, k);
      AddedBefore(o.req, o.stored, r.stored, places, k, |o.req.docs|);
    } else if failed {
      var k: nat, j: nat :| OnTheWay(o, k) && BrokenOffAt(o, Rounds(o, k), j, r.stored);
      places := RoundsAdd(o, k);
      places := BrokenOffAdds(o, Rounds(o, k), j, r.stored, places);
    } else {
      places := UntilAdds(o, 0);
    }
  }

  lemma BrokenOffAdds(o: Command, s: Progress, j: nat, now: seq<Doc>, known: seq<nat>) returns (places: seq<nat>)
    requires s.next <= |o.req.docs| && BrokenOffAt(o, s, j, now)
    requires Added(o.req, o.stored, s.report.stored, known, s.next)
    ensures Added(o.req, o.stored, now, places, |o.req.docs|)
  {
    hide Added, Partial, GoesInWhole, FirstFault;
    var q := FillEnd(o.req, s.next, o.batchSize);
    places := PartialAdds(o.req, o.stored, s.report, s.next, q, j, known);
    BehindInBatch(o.req, s.next, q, j);
    AddedBefore(o.req, o.stored, now, places, Behind(o.req, s.next, q, j), |o.req.docs|);
  }

  lemma {:induction false} UntilAdds(o: Command, k: nat) returns (places: seq<nat>)
    requires o.batchSize > 0
    ensures Added(o.req, o.stored, Until(o, k).stored, places, |o.req.docs|)
    decreases |o.req.docs| - Rounds(o, k).next
  {
    GoesOn(o, k);
    hide Added, Until;
    if Stops(o, k) {
      places := RoundsAdd(o, k);
      AddedBefore(o.req, o.stored, Until(o, k).stored, places, Rounds(o, k).next, |o.req.docs|);
    } else {
      places := UntilAdds(o, k + 1);
    }
  }

  // ---- what is refused ----

  /** A document is refused for its flaw, or for an id or a key that is taken. */
  lemma RefusedExactlyWhen(req: Request, stored: seq<Doc>, i: nat)
    requires i < |req.docs|
    ensures req.Refused(stored, i) <==>
              || req.docs[i].flaw.Some?
              || exists d :: d in req.OneByOne(stored, i).stored
                             && (d.id == Some(IdOf(req, i)) || d.entries * req.docs[i].entries != {})
  {
    var now := req.OneByOne(stored, i).stored;
    hide Request.OneByOne;
    if d :| d in now && (d.id == Some(IdOf(req, i)) || d.entries * req.docs[i].entries != {}) {
      var k :| 0 <= k < |now| && now[k] == d;
      assert Conflict(now[k], req.At(i));
    }
  }

  /** The id generated for document i is no other document's. */
  ghost predicate NewIdIsNew(req: Request, stored: seq<Doc>, i: nat)
    requires i < |req.docs|
  {
    && (forall d | d in stored :: d.id != Some(req.newId(i)))
    && (forall j: nat | j < |req.docs| && j != i :: IdOf(req, j) != req.newId(i))
  }

  /** A document without a flaw, an id of its own or unique entries is not refused when its new id is new. */
  lemma NewIsNotRefused(req: Request, stored: seq<Doc>, i: nat)
    requires i < |req.docs| && req.docs[i] == Doc(None, {}, None) && NewIdIsNew(req, stored, i)
    ensures !req.Refused(stored, i)
  {
    RefusedExactlyWhen(req, stored, i);
    var places := OneByOneAdds(req, stored, i);
    hide Request.Refused, Request.OneByOne;
    var now := req.OneByOne(stored, i).stored;
    forall d | d in now ensures d.id != Some(req.newId(i)) {
      var k :| 0 <= k < |now| && now[k] == d;
      if k < |stored| {
        assert d == stored[k];
      } else {
        assert ComesFrom(req, now[|stored| + (k - |stored|)], places[k - |stored|]);
      }
    }
  }

  /** Such a document is stored under its new id and not reported, whatever happens to the others; and an ordered
      command of such documents stores them all. */
  lemma NewDocumentsAreStored(o: Command, ordered: bool, r: Report, i: nat)
    requires o.batchSize > 0 && Promised(o, ordered, false, r) && i < |o.req.docs|
    requires o.req.docs[i] == Doc(None, {}, None) && NewIdIsNew(o.req, o.stored, i)
    requires ordered ==> forall k :: !o.faults(k)
    requires ordered ==> forall j: nat | j < |o.req.docs| ::
               o.req.docs[j] == Doc(None, {}, None) && NewIdIsNew(o.req, o.stored, j)
    ensures Doc(Some(o.req.newId(i)), {}, None) in r.stored && forall e | e in r.errors :: e.index != i
    ensures ordered ==> r.n == |o.req.docs| && r.errors == []
  {
    var req, stored, k := o.req, o.stored, |o.req.docs|;
    if ordered {
      forall j: nat | j < k ensures !req.Refused(stored, j) { NewIsNotRefused(req, stored, j); }
      NoneRefusedNoErrors(req, stored, k);
      StoredOrReported(req, stored, k);
      assert r == req.OneByOne(stored, k);
    }
    hide Promised, Request.OneByOne, Request.Refused, NewIdIsNew;
    NewIsNotRefused(req, stored, i);
    AcceptedAreStored(req, stored, k, i);
    forall e | e in r.errors ensures e.index != i { RefusedExactlyReported(req, stored, k, e); }
  }
}
