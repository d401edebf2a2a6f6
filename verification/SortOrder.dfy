/**
 The $sort comparison (compare_order.go) and the array minimum and maximum it
 rests on (array.go): a total preorder in both directions, with the empty array
 at the bottom, blind to the order of an array's elements.
 */
module SortOrder {
  import opened Optional
  import opened Values
  import opened Comparison
  import opened ComparisonLaws

  datatype SortType = Ascending | Descending

  // ---- Array.Min and Array.Max ----

  /** The fold of Min (wanted == Greater) and Max (wanted == Less): an element replaces
      the best so far when the best compares as `wanted` to it. */
  function Best(best: Value, rest: seq<Value>, wanted: CompareResult): Value
    decreases |rest|
  {
    if rest == [] then best
    else Best(if CompareOrder(best, rest[0]) == Ok(wanted) then rest[0] else best, rest[1..], wanted)
  }

  function MinOf(items: seq<Value>): Value
    requires items != []
  {
    Best(items[0], items[1..], Greater)
  }

  function MaxOf(items: seq<Value>): Value
    requires items != []
  {
    Best(items[0], items[1..], Less)
  }

  method Min(items: seq<Value>) returns (min: Value)
    requires items != [] && AllCompilable(items)
    ensures min == MinOf(items)
    ensures min in items && forall v | v in items :: CompareOrder(min, v).Ok? && CompareOrder(min, v) != Ok(Greater)
  {
    min := items[0];
    for i := 1 to |items|
      invariant Best(min, items[i..], Greater) == MinOf(items)
    {
      assert items[i..][1..] == items[i + 1..];
      if CompareOrder(min, items[i]) == Ok(Greater) { min := items[i]; }
    }
    MinIsLeast(items);
  }

  method Max(items: seq<Value>) returns (max: Value)
    requires items != [] && AllCompilable(items)
    ensures max == MaxOf(items)
    ensures max in items && forall v | v in items :: CompareOrder(max, v).Ok? && CompareOrder(max, v) != Ok(Less)
  {
    max := items[0];
    for i := 1 to |items|
      invariant Best(max, items[i..], Less) == MaxOf(items)
    {
      assert items[i..][1..] == items[i + 1..];
      if CompareOrder(max, items[i]) == Ok(Less) { max := items[i]; }
    }
    MaxIsGreatest(items);
  }

  /** The fold ends on an element that compares as `wanted` to none of them. */
  lemma {:induction false} BestIsUnbeaten(best: Value, rest: seq<Value>, wanted: CompareResult)
    requires wanted != Equal && Compilable(best) && AllCompilable(rest)
    ensures Best(best, rest, wanted) in [best] + rest
    ensures forall v | v in [best] + rest ::
              var r := CompareOrder(Best(best, rest, wanted), v); r.Ok? && r != Ok(wanted)
    decreases |rest|
  {
    if rest == [] {
      CompareOrderInverts(best, best);
    } else {
      var next := if CompareOrder(best, rest[0]) == Ok(wanted) then rest[0] else best;
      var loser := if next == best then rest[0] else best;
      BestIsUnbeaten(next, rest[1..], wanted);
      var winner := Best(next, rest[1..], wanted);
      CompareOrderInverts(best, rest[0]);
      CompareOrderInverts(next, loser);
      CompareOrderComposes(winner, next, loser);
      forall v | v in [best] + rest
        ensures v == loser || v in [next] + rest[1..]
      {
        assert [best] + rest == [best, rest[0]] + rest[1..];
      }
    }
  }

  lemma MinIsLeast(items: seq<Value>)
    requires items != [] && AllCompilable(items)
    ensures MinOf(items) in items
    ensures forall v | v in items :: CompareOrder(MinOf(items), v).Ok? && CompareOrder(MinOf(items), v) != Ok(Greater)
  {
    BestIsUnbeaten(items[0], items[1..], Greater);
    assert items == [items[0]] + items[1..];
  }

  lemma MaxIsGreatest(items: seq<Value>)
    requires items != [] && AllCompilable(items)
    ensures MaxOf(items) in items
    ensures forall v | v in items :: CompareOrder(MaxOf(items), v).Ok? && CompareOrder(MaxOf(items), v) != Ok(Less)
  {
    BestIsUnbeaten(items[0], items[1..], Less);
    assert items == [items[0]] + items[1..];
  }

  // ---- CompareOrderForSort ----

  function ComparisonElement(items: seq<Value>, order: SortType): Value {
    if items == [] then Arr(items)
    else if order == Ascending then MinOf(items) else MaxOf(items)
  }

  predicate IsEmptyArray(v: Value) {
    v.Arr? && v.items == []
  }

  function CompareOrderForSort(a: Value, b: Value, order: SortType): Outcome {
    if IsEmptyArray(a) && IsEmptyArray(b) then Ok(Equal)
    else if IsEmptyArray(a) then Ok(if order == Ascending then Less else Greater)
    else if IsEmptyArray(b) then Ok(if order == Ascending then Greater else Less)
    else
      var x := if a.Arr? then ComparisonElement(a.items, order) else a;
      var y := if b.Arr? then ComparisonElement(b.items, order) else b;
      var byType := CompareTypeOrder(x, y);
      if byType != Equal then Ok(if order == Ascending then byType else CompareInvert(byType))
      else
        var result :- Compare(x, y);
        Ok(if order == Ascending then result else CompareInvert(result))
  }

  /** What a value is sorted by: nothing for an empty array, an extreme element, or itself. */
  function SortKey(v: Value, order: SortType): Option<Value> {
    if IsEmptyArray(v) then None
    else if v.Arr? then Some(ComparisonElement(v.items, order)) else Some(v)
  }

  /** Keys with None below everything. */
  function CompareKeys(x: Option<Value>, y: Option<Value>): Outcome {
    match (x, y)
    case (None, None) => Ok(Equal)
    case (None, Some(_)) => Ok(Less)
    case (Some(_), None) => Ok(Greater)
    case (Some(v), Some(w)) => CompareOrder(v, w)
  }

  ghost predicate KeyCompilable(x: Option<Value>) {
    x.Some? ==> Compilable(x.value)
  }

  lemma SortKeyCompilable(v: Value, order: SortType)
    requires Compilable(v)
    ensures KeyCompilable(SortKey(v, order))
  {
    if v.Arr? && v.items != [] {
      MinIsLeast(v.items);
      MaxIsGreatest(v.items);
    }
  }

  /** The sort comparison never panics and is the key comparison, turned round when descending. */
  lemma SortComparesKeys(a: Value, b: Value, order: SortType)
    requires Compilable(a) && Compilable(b)
    ensures CompareOrderForSort(a, b, order).Ok?
    ensures CompareOrderForSort(a, b, order) ==
            if order == Ascending then CompareKeys(SortKey(a, order), SortKey(b, order))
            else InvertOutcome(CompareKeys(SortKey(a, order), SortKey(b, order)))
  {
    SortKeyCompilable(a, order);
    SortKeyCompilable(b, order);
    if SortKey(a, order).Some? && SortKey(b, order).Some? {
      CompareOrderNeverPanics(SortKey(a, order).value, SortKey(b, order).value);
    }
  }

  lemma SortInverts(a: Value, b: Value, order: SortType)
    requires Compilable(a) && Compilable(b)
    ensures CompareOrderForSort(b, a, order) == InvertOutcome(CompareOrderForSort(a, b, order))
  {
    SortComparesKeys(a, b, order);
    SortComparesKeys(b, a, order);
    SortKeyCompilable(a, order);
    SortKeyCompilable(b, order);
    if SortKey(a, order).Some? && SortKey(b, order).Some? {
      CompareOrderInverts(SortKey(a, order).value, SortKey(b, order).value);
    }
  }

  lemma KeysCompose(x: Option<Value>, y: Option<Value>, z: Option<Value>)
    requires KeyCompilable(x) && KeyCompilable(y) && KeyCompilable(z)
    ensures CompareKeys(x, y).Ok? && CompareKeys(y, z).Ok? && CompareKeys(x, z).Ok?
    ensures Composes(CompareKeys(x, y).result, CompareKeys(y, z).result, CompareKeys(x, z).result)
  {
    if x.Some? && y.Some? { CompareOrderNeverPanics(x.value, y.value); }
    if y.Some? && z.Some? { CompareOrderNeverPanics(y.value, z.value); }
    if x.Some? && z.Some? { CompareOrderNeverPanics(x.value, z.value); }
    if x.Some? && y.Some? && z.Some? { CompareOrderComposes(x.value, y.value, z.value); }
  }

  ghost predicate OutcomesCompose(ab: Outcome, bc: Outcome, ac: Outcome) {
    ab.Ok? && bc.Ok? && ac.Ok? && Composes(ab.result, bc.result, ac.result)
  }

  lemma InvertingKeepsComposition(ab: Outcome, bc: Outcome, ac: Outcome)
    requires OutcomesCompose(ab, bc, ac)
    ensures OutcomesCompose(InvertOutcome(ab), InvertOutcome(bc), InvertOutcome(ac))
  {}

  lemma SortComposes(a: Value, b: Value, c: Value, order: SortType)
    requires Compilable(a) && Compilable(b) && Compilable(c)
    ensures OutcomesCompose(CompareOrderForSort(a, b, order), CompareOrderForSort(b, c, order),
                            CompareOrderForSort(a, c, order))
  {
    SortComparesKeys(a, b, order);
    SortComparesKeys(b, c, order);
    SortComparesKeys(a, c, order);
    SortKeyCompilable(a, order);
    SortKeyCompilable(b, order);
    SortKeyCompilable(c, order);
    var x, y, z := SortKey(a, order), SortKey(b, order), SortKey(c, order);
    KeysCompose(x, y, z);
    InvertingKeepsComposition(CompareKeys(x, y), CompareKeys(y, z), CompareKeys(x, z));
  }

  /** The empty array sorts strictly below every other value ascending, strictly above descending. */
  lemma EmptyArrayIsExtreme(v: Value)
    requires Compilable(v)
    ensures CompareOrderForSort(Arr([]), v, Ascending) == Ok(if v == Arr([]) then Equal else Less)
    ensures CompareOrderForSort(Arr([]), v, Descending) == Ok(if v == Arr([]) then Equal else Greater)
  {}

  /** An array sorts as any least element of it ascending, as any greatest descending; the element itself is
      compared as a whole, also when it is an array. */
  lemma ArraysSortByExtremes(s: seq<Value>, t: seq<Value>, x: Value, y: Value, order: SortType)
    requires AllCompilable(s) && AllCompilable(t) && x in s && y in t
    requires forall v | v in s :: CompareOrder(x, v) != Ok(if order == Ascending then Greater else Less)
    requires forall v | v in t :: CompareOrder(y, v) != Ok(if order == Ascending then Greater else Less)
    ensures CompareOrderForSort(Arr(s), Arr(t), order)
            == if order == Ascending then CompareOrder(x, y) else CompareOrder(y, x)
  {
    SortComparesKeys(Arr(s), Arr(t), order);
    ExtremesAlike(s, x, order);
    ExtremesAlike(t, y, order);
    hide CompareOrder, ComparisonElement, CompareOrderForSort;
    EqualValuesCompareAlike(ComparisonElement(s, order), x, ComparisonElement(t, order), y);
  }

  lemma EqualValuesCompareAlike(v: Value, x: Value, w: Value, y: Value)
    requires Compilable(v) && Compilable(x) && Compilable(w) && Compilable(y)
    requires CompareOrder(v, x) == CompareOrder(w, y) == Ok(Equal)
    ensures CompareOrder(v, w) == CompareOrder(x, y) && InvertOutcome(CompareOrder(v, w)) == CompareOrder(y, x)
  {
    hide CompareOrder, Compilable;
    CompareOrderComposes(v, x, y);
    CompareOrderComposes(v, w, y);
    CompareOrderInverts(x, y);
  }

  /** Any extreme element compares Equal to the one that is picked. */
  lemma ExtremesAlike(s: seq<Value>, x: Value, order: SortType)
    requires AllCompilable(s) && x in s
    requires forall v | v in s :: CompareOrder(x, v) != Ok(if order == Ascending then Greater else Less)
    ensures ComparisonElement(s, order) in s && CompareOrder(ComparisonElement(s, order), x) == Ok(Equal)
  {
    MinIsLeast(s);
    MaxIsGreatest(s);
    CompareOrderInverts(ComparisonElement(s, order), x);
  }

  /** What is no array sorts as CompareOrder says; against an array it meets the array's extreme. */
  lemma OthersSortByOrder(a: Value, b: Value, s: seq<Value>, order: SortType)
    requires Compilable(a) && Compilable(b) && AllCompilable(s) && !a.Arr? && !b.Arr? && s != []
    ensures CompareOrderForSort(a, b, order) == if order == Ascending then CompareOrder(a, b) else CompareOrder(b, a)
    ensures CompareOrderForSort(a, Arr(s), order) == CompareOrderForSort(Arr([a]), Arr(s), order)
  {
    SortComparesKeys(a, b, order);
    CompareOrderInverts(a, b);
  }

  /** Any two arrays with the same elements, in whatever order, sort the same way against anything. */
  lemma SortIgnoresElementOrder(s: seq<Value>, t: seq<Value>, b: Value, order: SortType)
    requires AllCompilable(s) && Compilable(b)
    requires multiset(s) == multiset(t)
    ensures CompareOrderForSort(Arr(s), b, order) == CompareOrderForSort(Arr(t), b, order)
  {
    forall v ensures v in s <==> v in t {
      assert v in multiset(s) <==> v in multiset(t);
    }
    if s != [] {
      assert s[0] in t;
      ExtremesAgree(s, t, order);
      SortComposes(Arr(s), Arr(t), b, order);
    } else {
      assert |multiset(t)| == |multiset(s)|;
    }
  }

  lemma ExtremesAgree(s: seq<Value>, t: seq<Value>, order: SortType)
    requires s != [] && t != [] && AllCompilable(s) && AllCompilable(t)
    requires forall v :: v in s <==> v in t
    ensures CompareOrderForSort(Arr(s), Arr(t), order) == Ok(Equal)
  {
    MinIsLeast(s);
    MinIsLeast(t);
    MaxIsGreatest(s);
    MaxIsGreatest(t);
    SortComparesKeys(Arr(s), Arr(t), order);
    CompareOrderInverts(ComparisonElement(s, order), ComparisonElement(t, order));
  }
}
