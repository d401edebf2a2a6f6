/**
 CompareOrder is a total preorder on all BSON values whose regexes compile:
 it never panics, swapping the arguments inverts the result, and it composes.
 Its equivalence is equality of normal forms, and its strict part is the
 lexicographic order decided at the first difference.
 */
module ComparisonLaws {
  import opened Optional
  import opened Values
  import opened Comparison

  ghost predicate AllCompilable(items: seq<Value>) {
    forall v | v in items :: Compilable(v)
  }

  ghost predicate FieldsCompilable(fields: seq<Field>) {
    forall f | f in fields :: Compilable(f.value)
  }

  /** Exactly one side is NaN and the other is a number: the operands Go cannot order. */
  predicate MixedNaN(a: Value, b: Value) {
    (a == Double(NaN) && IsNumber(b)) || (IsNumber(a) && b == Double(NaN))
  }

  // ---- when comparison panics ----

  lemma {:induction false} CompareOrderNeverPanics(a: Value, b: Value)
    requires Compilable(a) && Compilable(b)
    ensures CompareOrder(a, b).Ok?
    decreases a, 1
  {
    if DataType(a) == DataType(b) {
      ComparePanicsExactlyOnMixedNaN(a, b);
    }
  }

  lemma {:induction false} ComparePanicsExactlyOnMixedNaN(a: Value, b: Value)
    requires Compilable(a) && Compilable(b)
    ensures Compare(a, b) == Panic <==> MixedNaN(a, b)
    decreases a, 0
  {
    match a
    case Doc(fields) => if b.Doc? { DocumentsNeverPanic(fields, b.fields); }
    case Arr(items) =>
      if b.Arr? { ArraysNeverPanic(items, b.items); } else { ScanNeverPanics(items, b, Equal, false); }
    case _ =>
  }

  lemma {:induction false} ArraysNeverPanic(s: seq<Value>, t: seq<Value>)
    requires AllCompilable(s) && AllCompilable(t)
    ensures CompareArrays(s, t).Ok?
    decreases s
  {
    if s != [] && t != [] {
      CompareOrderNeverPanics(s[0], t[0]);
      ComparePanicsExactlyOnMixedNaN(s[0], t[0]);
      ArraysNeverPanic(s[1..], t[1..]);
    }
  }

  lemma {:induction false} DocumentsNeverPanic(s: seq<Field>, t: seq<Field>)
    requires FieldsCompilable(s) && FieldsCompilable(t)
    ensures CompareDocuments(s, t).Ok?
    decreases s
  {
    if s != [] && t != [] {
      ComparePanicsExactlyOnMixedNaN(s[0].value, t[0].value);
      DocumentsNeverPanic(s[1..], t[1..]);
    }
  }

  lemma {:induction false} ScanNeverPanics(s: seq<Value>, b: Value, last: CompareResult, comparable: bool)
    requires AllCompilable(s) && Compilable(b)
    ensures ScanArray(s, b, last, comparable).Ok?
    decreases s
  {
    if s != [] {
      ComparePanicsExactlyOnMixedNaN(s[0], b);
      var byType := CompareTypeOrder(s[0], b);
      ScanNeverPanics(s[1..], b, byType, comparable);
      if byType == Equal {
        ScanNeverPanics(s[1..], b, Compare(s[0], b).result, true);
      }
    }
  }

  /** Two scalars that cannot be ordered: NaN and a number, or regexes of which one does not compile. */
  predicate Unordered(a: Value, b: Value) {
    MixedNaN(a, b) || (a.Regex? && b.Regex? && (CompileRegex(a).None? || CompileRegex(b).None?))
  }

  /** What the comparison meets first, inside documents and arrays as well, is a pair that cannot be ordered. */
  ghost predicate Panics(a: Value, b: Value)
    decreases a, 0
  {
    match a
    case Doc(fields) =>
      b.Doc? && exists i :: 0 <= i < |fields| && i < |b.fields| && FieldPanics(fields[i], b.fields[i])
                            && forall j | 0 <= j < i :: FieldsAgree(fields[j], b.fields[j])
    case Arr(items) =>
      if b.Arr? then
        exists i :: 0 <= i < |items| && i < |b.items| && DataType(items[i]) == DataType(b.items[i])
                    && Panics(items[i], b.items[i])
                    && forall j | 0 <= j < i :: CompareOrder(items[j], b.items[j]) == Ok(Equal)
      else
        exists i :: 0 <= i < |items| && DataType(items[i]) == DataType(b) && Panics(items[i], b)
                    && forall j | 0 <= j < i :: !Matches(items[j], b)
    case _ => Unordered(a, b)
  }

  ghost predicate FieldPanics(f: Field, g: Field)
    decreases f, 1
  {
    DataType(f.value) == DataType(g.value) && f.key == g.key && Panics(f.value, g.value)
  }

  lemma {:induction false} DocumentsPanic(s: seq<Field>, t: seq<Field>)
    ensures CompareDocuments(s, t) == Panic
            <==> exists i :: 0 <= i < |s| && i < |t| && CompareFields(s[i], t[i]) == Panic
                             && forall j | 0 <= j < i :: CompareFields(s[j], t[j]) == Ok(Equal)
    decreases |s|
  {
    hide CompareFields;
    if s != [] && t != [] && CompareFields(s[0], t[0]) == Ok(Equal) {
      DocumentsPanic(s[1..], t[1..]);
      if i :| 0 <= i < |s[1..]| && i < |t[1..]| && CompareFields(s[1..][i], t[1..][i]) == Panic
              && forall j | 0 <= j < i :: CompareFields(s[1..][j], t[1..][j]) == Ok(Equal) {
        assert CompareFields(s[i + 1], t[i + 1]) == Panic;
      }
    }
  }

  lemma {:induction false} ArraysPanic(s: seq<Value>, t: seq<Value>)
    ensures CompareArrays(s, t) == Panic
            <==> exists i :: 0 <= i < |s| && i < |t| && CompareOrder(s[i], t[i]) == Panic
                             && forall j | 0 <= j < i :: CompareOrder(s[j], t[j]) == Ok(Equal)
    decreases |s|
  {
    if s != [] && t != [] && CompareOrder(s[0], t[0]) == Ok(Equal) {
      assert Compare(s[0], t[0]) == Ok(Equal);
      hide Compare, CompareOrder;
      ArraysPanic(s[1..], t[1..]);
      if i :| 0 <= i < |s[1..]| && i < |t[1..]| && CompareOrder(s[1..][i], t[1..][i]) == Panic
              && forall j | 0 <= j < i :: CompareOrder(s[1..][j], t[1..][j]) == Ok(Equal) {
        assert CompareOrder(s[i + 1], t[i + 1]) == Panic;
      }
    }
  }

  lemma {:induction false} ScanPanics(s: seq<Value>, b: Value, last: CompareResult, comparable: bool)
    ensures ScanArray(s, b, last, comparable) == Panic
            <==> exists i :: 0 <= i < |s| && DataType(s[i]) == DataType(b) && Compare(s[i], b) == Panic
                             && forall j | 0 <= j < i :: !Matches(s[j], b)
    decreases |s|
  {
    hide Compare, DataType;
    if s != [] && !Matches(s[0], b) {
      var byType := CompareTypeOrder(s[0], b);
      if byType != Equal || Compare(s[0], b).Ok? {
        var last' := if byType != Equal then byType else Compare(s[0], b).result;
        var comparable' := byType == Equal || comparable;
        ScanPanics(s[1..], b, last', comparable');
        if i :| 0 <= i < |s[1..]| && DataType(s[1..][i]) == DataType(b) && Compare(s[1..][i], b) == Panic
                && forall j | 0 <= j < i :: !Matches(s[1..][j], b) {
          assert DataType(s[i + 1]) == DataType(b);
        }
      }
    }
  }

  lemma ScalarPanicsWhen(a: Value, b: Value)
    requires IsScalar(a)
    ensures Compare(a, b) == Panic <==> Panics(a, b)
  {
    ScalarsUnordered(a, b);
    hide CompareScalars, Unordered;
  }

  lemma ScalarsUnordered(a: Value, b: Value)
    requires IsScalar(a)
    ensures CompareScalars(a, b) == Panic <==> Unordered(a, b)
  {
    hide CompareText, CompareBinary, CompareExtended, CompileRegex;
  }

  lemma DocumentPanicsWhen(fields: seq<Field>, b: Value)
    requires forall i | b.Doc? && 0 <= i < |fields| && i < |b.fields| ::
               Compare(fields[i].value, b.fields[i].value) == Panic <==> Panics(fields[i].value, b.fields[i].value)
    ensures Compare(Doc(fields), b) == Panic <==> Panics(Doc(fields), b)
  {
    if b.Doc? {
      forall i | 0 <= i < |fields| && i < |b.fields|
        ensures CompareFields(fields[i], b.fields[i]) == Panic <==> FieldPanics(fields[i], b.fields[i])
      {
        FieldPanicsWhen(fields[i], b.fields[i]);
      }
      forall i | 0 <= i < |fields| && i < |b.fields|
        ensures CompareFields(fields[i], b.fields[i]) == Ok(Equal) <==> FieldsAgree(fields[i], b.fields[i])
      {
        FieldsCompareAs(fields[i], b.fields[i]);
      }
      hide CompareFields, FieldPanics, FieldsAgree;
      DocumentsPanic(fields, b.fields);
    }
  }

  lemma FieldPanicsWhen(f: Field, g: Field)
    requires Compare(f.value, g.value) == Panic <==> Panics(f.value, g.value)
    ensures CompareFields(f, g) == Panic <==> FieldPanics(f, g)
  {
    hide Compare, Panics, DataType;
    TextEqual(f.key, g.key);
  }

  lemma ArrayPanicsWhen(s: seq<Value>, t: seq<Value>)
    requires forall i | 0 <= i < |s| && i < |t| ::
               CompareOrder(s[i], t[i]) == Panic <==> DataType(s[i]) == DataType(t[i]) && Panics(s[i], t[i])
    ensures Compare(Arr(s), Arr(t)) == Panic <==> Panics(Arr(s), Arr(t))
  {
    hide CompareOrder, DataType;
    ArraysPanic(s, t);
  }

  lemma ScanPanicsWhen(items: seq<Value>, b: Value)
    requires !b.Arr? && forall i | 0 <= i < |items| :: Compare(items[i], b) == Panic <==> Panics(items[i], b)
    ensures Compare(Arr(items), b) == Panic <==> Panics(Arr(items), b)
  {
    hide Matches, DataType;
    ScanPanics(items, b, Equal, false);
  }

  /** The exact condition for every pair of values, regexes that do not compile included. */
  lemma {:induction false} ComparePanicsExactlyWhen(a: Value, b: Value)
    ensures Compare(a, b) == Panic <==> Panics(a, b)
    ensures CompareOrder(a, b) == Panic <==> DataType(a) == DataType(b) && Panics(a, b)
    decreases a
  {
    hide Panics, FieldPanics, Compare, DataType;
    match a
    case Doc(fields) =>
      forall i | b.Doc? && 0 <= i < |fields| && i < |b.fields|
        ensures Compare(fields[i].value, b.fields[i].value) == Panic <==> Panics(fields[i].value, b.fields[i].value)
      {
        ComparePanicsExactlyWhen(fields[i].value, b.fields[i].value);
      }
      DocumentPanicsWhen(fields, b);
    case Arr(items) =>
      if b.Arr? {
        forall i | 0 <= i < |items| && i < |b.items|
          ensures CompareOrder(items[i], b.items[i]) == Panic
                  <==> DataType(items[i]) == DataType(b.items[i]) && Panics(items[i], b.items[i])
        {
          ComparePanicsExactlyWhen(items[i], b.items[i]);
        }
        ArrayPanicsWhen(items, b.items);
      } else {
        forall i | 0 <= i < |items| ensures Compare(items[i], b) == Panic <==> Panics(items[i], b) {
          ComparePanicsExactlyWhen(items[i], b);
        }
        ScanPanicsWhen(items, b);
      }
    case _ => ScalarPanicsWhen(a, b);
  }

  // ---- swapping the arguments ----

  lemma {:induction false} TextInverts(a: Text, b: Text)
    ensures CompareText(b, a) == CompareInvert(CompareText(a, b))
    decreases |a|
  {
    if a != [] && b != [] { TextInverts(a[1..], b[1..]); }
  }

  lemma {:induction false} ScalarsInvert(a: Value, b: Value)
    requires IsScalar(a) && IsScalar(b) && DataType(a) == DataType(b)
    requires Compilable(a) && Compilable(b)
    ensures CompareScalars(a, b).Ok? && CompareScalars(b, a) == InvertOutcome(CompareScalars(a, b))
  {
    match a
    case Str(x) => TextInverts(x, b.text);
    case Binary(_, x) => TextInverts(x, b.bytes);
    case ObjectId(x) => TextInverts(x, b.id);
    case Regex(_, _, _) => TextInverts(CompileRegex(a).value, CompileRegex(b).value);
    case _ =>
  }

  /** Swapping the arguments of CompareOrder inverts the result. */
  lemma {:induction false} CompareOrderInverts(a: Value, b: Value)
    requires Compilable(a) && Compilable(b)
    ensures CompareOrder(a, b).Ok? && CompareOrder(b, a) == InvertOutcome(CompareOrder(a, b))
    decreases a, 1
  {
    if DataType(a) == DataType(b) { CompareInverts(a, b); }
  }

  lemma {:induction false} CompareInverts(a: Value, b: Value)
    requires Compilable(a) && Compilable(b) && DataType(a) == DataType(b)
    ensures Compare(a, b).Ok? && Compare(b, a) == InvertOutcome(Compare(a, b))
    decreases a, 0
  {
    match a
    case Doc(fields) => DocumentsInvert(fields, b.fields);
    case Arr(items) => ArraysInvert(items, b.items);
    case _ => ScalarsInvert(a, b);
  }

  lemma {:induction false} ArraysInvert(s: seq<Value>, t: seq<Value>)
    requires AllCompilable(s) && AllCompilable(t)
    ensures CompareArrays(s, t).Ok? && CompareArrays(t, s) == InvertOutcome(CompareArrays(s, t))
    decreases s
  {
    if s != [] && t != [] {
      CompareOrderInverts(s[0], t[0]);
      ArraysInvert(s[1..], t[1..]);
    }
  }

  lemma {:induction false} DocumentsInvert(s: seq<Field>, t: seq<Field>)
    requires FieldsCompilable(s) && FieldsCompilable(t)
    ensures CompareDocuments(s, t).Ok? && CompareDocuments(t, s) == InvertOutcome(CompareDocuments(s, t))
    decreases s
  {
    if s != [] && t != [] {
      TextInverts(s[0].key, t[0].key);
      if DataType(s[0].value) == DataType(t[0].value) { CompareInverts(s[0].value, t[0].value); }
      DocumentsInvert(s[1..], t[1..]);
    }
  }

  // ---- composition ----

  /**
   What a total preorder owes three values a, b, c with results ab, bc and ac:
   Equal is neutral and two equal directions compose.
   */
  predicate Composes(ab: CompareResult, bc: CompareResult, ac: CompareResult) {
    && (ab == Equal ==> ac == bc)
    && (bc == Equal ==> ac == ab)
    && (ab == bc ==> ac == ab)
  }

  lemma {:induction false} TextComposes(a: Text, b: Text, c: Text)
    ensures Composes(CompareText(a, b), CompareText(b, c), CompareText(a, c))
    decreases |a|
  {
    if a != [] && b != [] && c != [] { TextComposes(a[1..], b[1..], c[1..]); }
  }

  /** The extended real of a number; NaN for everything else. */
  function Extended(v: Value): Double {
    match v
    case Double(d) => d
    case Int32(n) => Finite(n as real)
    case Int64(n) => Finite(n as real)
    case _ => NaN
  }

  /** Mixed int32, int64 and double comparison is comparison of the numbers meant. */
  lemma NumbersByValue(a: Value, b: Value)
    requires IsNumber(a) && IsNumber(b)
    ensures CompareOrder(a, b) == Ok(CompareExtended(Extended(a), Extended(b)))
  {}

  lemma NumbersCompose(a: Value, b: Value, c: Value)
    requires IsNumber(a) && IsNumber(b) && IsNumber(c)
    ensures CompareScalars(a, b).Ok? && CompareScalars(b, c).Ok? && CompareScalars(a, c).Ok?
    ensures Composes(CompareScalars(a, b).result, CompareScalars(b, c).result, CompareScalars(a, c).result)
  {
    NumbersByValue(a, b);
    NumbersByValue(b, c);
    NumbersByValue(a, c);
  }

  lemma {:induction false} ScalarsCompose(a: Value, b: Value, c: Value)
    requires IsScalar(a) && DataType(a) == DataType(b) == DataType(c)
    requires Compilable(a) && Compilable(b) && Compilable(c)
    requires CompareScalars(a, b).Ok? && CompareScalars(b, c).Ok? && CompareScalars(a, c).Ok?
    ensures Composes(CompareScalars(a, b).result, CompareScalars(b, c).result, CompareScalars(a, c).result)
  {
    if IsNumber(a) {
      NumbersCompose(a, b, c);
    } else {
      match a
      case Str(x) => TextComposes(x, b.text, c.text);
      case Binary(_, x) => TextComposes(x, b.bytes, c.bytes);
      case ObjectId(x) => TextComposes(x, b.id, c.id);
      case Regex(_, _, _) =>
        TextComposes(CompileRegex(a).value, CompileRegex(b).value, CompileRegex(c).value);
      case _ =>
    }
  }

  /** CompareOrder is transitive, in the strong form that Equal is neutral. */
  lemma {:induction false} CompareOrderComposes(a: Value, b: Value, c: Value)
    requires Compilable(a) && Compilable(b) && Compilable(c)
    ensures CompareOrder(a, b).Ok? && CompareOrder(b, c).Ok? && CompareOrder(a, c).Ok?
    ensures Composes(CompareOrder(a, b).result, CompareOrder(b, c).result, CompareOrder(a, c).result)
    decreases a, 1
  {
    CompareOrderNeverPanics(a, b);
    CompareOrderNeverPanics(b, c);
    CompareOrderNeverPanics(a, c);
    if DataType(a) == DataType(b) == DataType(c) { CompareComposes(a, b, c); }
  }

  lemma {:induction false} CompareComposes(a: Value, b: Value, c: Value)
    requires Compilable(a) && Compilable(b) && Compilable(c)
    requires DataType(a) == DataType(b) == DataType(c)
    ensures Compare(a, b).Ok? && Compare(b, c).Ok? && Compare(a, c).Ok?
    ensures Composes(Compare(a, b).result, Compare(b, c).result, Compare(a, c).result)
    decreases a, 0
  {
    ComparePanicsExactlyOnMixedNaN(a, b);
    ComparePanicsExactlyOnMixedNaN(b, c);
    ComparePanicsExactlyOnMixedNaN(a, c);
    match a
    case Doc(fields) => DocumentsCompose(fields, b.fields, c.fields);
    case Arr(items) => ArraysCompose(items, b.items, c.items);
    case _ => ScalarsCompose(a, b, c);
  }

  lemma {:induction false} ArraysCompose(s: seq<Value>, t: seq<Value>, u: seq<Value>)
    requires AllCompilable(s) && AllCompilable(t) && AllCompilable(u)
    requires CompareArrays(s, t).Ok? && CompareArrays(t, u).Ok? && CompareArrays(s, u).Ok?
    ensures Composes(CompareArrays(s, t).result, CompareArrays(t, u).result, CompareArrays(s, u).result)
    decreases s
  {
    if s != [] && t != [] && u != [] {
      CompareOrderComposes(s[0], t[0], u[0]);
      ArraysNeverPanic(s[1..], t[1..]);
      ArraysNeverPanic(t[1..], u[1..]);
      ArraysNeverPanic(s[1..], u[1..]);
      ArraysCompose(s[1..], t[1..], u[1..]);
    }
  }

  lemma {:induction false} FieldsCompose(f: Field, g: Field, h: Field)
    requires Compilable(f.value) && Compilable(g.value) && Compilable(h.value)
    ensures CompareFields(f, g).Ok? && CompareFields(g, h).Ok? && CompareFields(f, h).Ok?
    ensures Composes(CompareFields(f, g).result, CompareFields(g, h).result, CompareFields(f, h).result)
    decreases f
  {
    CompareOrderNeverPanics(f.value, g.value);
    CompareOrderNeverPanics(g.value, h.value);
    CompareOrderNeverPanics(f.value, h.value);
    TextComposes(f.key, g.key, h.key);
    if DataType(f.value) == DataType(g.value) == DataType(h.value) {
      CompareComposes(f.value, g.value, h.value);
    }
  }

  lemma {:induction false} DocumentsCompose(s: seq<Field>, t: seq<Field>, u: seq<Field>)
    requires FieldsCompilable(s) && FieldsCompilable(t) && FieldsCompilable(u)
    requires CompareDocuments(s, t).Ok? && CompareDocuments(t, u).Ok? && CompareDocuments(s, u).Ok?
    ensures Composes(CompareDocuments(s, t).result, CompareDocuments(t, u).result, CompareDocuments(s, u).result)
    decreases s
  {
    if s != [] && t != [] && u != [] {
      FieldsCompose(s[0], t[0], u[0]);
      DocumentsNeverPanic(s[1..], t[1..]);
      DocumentsNeverPanic(t[1..], u[1..]);
      DocumentsNeverPanic(s[1..], u[1..]);
      DocumentsCompose(s[1..], t[1..], u[1..]);
    }
  }

  // ---- what Equal means ----

  /** The same value with every number as a double and every regex as its compiled text. */
  function Normal(v: Value): Value
    requires Compilable(v)
    ensures Compilable(Normal(v))
    decreases v
  {
    match v
    case Int32(n) => Double(Finite(n as real))
    case Int64(n) => Double(Finite(n as real))
    case Regex(_, _, _) => Regex(CompileRegex(v).value, [], true)
    case Doc(fields) => Doc(NormalFields(fields))
    case Arr(items) => Arr(NormalItems(items))
    case _ => v
  }

  function NormalItems(s: seq<Value>): (t: seq<Value>)
    requires forall v | v in s :: Compilable(v)
    ensures |t| == |s| && forall v | v in t :: Compilable(v)
    decreases s
  {
    if s == [] then [] else [Normal(s[0])] + NormalItems(s[1..])
  }

  function NormalFields(s: seq<Field>): (t: seq<Field>)
    requires forall f | f in s :: Compilable(f.value)
    ensures |t| == |s| && forall f | f in t :: Compilable(f.value)
    decreases s
  {
    if s == [] then [] else [Field(s[0].key, Normal(s[0].value))] + NormalFields(s[1..])
  }

  lemma {:induction false} TextEqual(a: Text, b: Text)
    ensures CompareText(a, b) == Equal <==> a == b
    decreases |a|
  {
    if a != [] && b != [] {
      TextEqual(a[1..], b[1..]);
      assert a == [a[0]] + a[1..] && b == [b[0]] + b[1..];
    }
  }

  /** CompareOrder identifies two values exactly when their normal forms coincide. */
  lemma {:induction false} EqualExactlyOnNormalForms(a: Value, b: Value)
    requires Compilable(a) && Compilable(b)
    ensures CompareOrder(a, b) == Ok(Equal) <==> Normal(a) == Normal(b)
    decreases a, 1
  {
    CompareOrderNeverPanics(a, b);
    assert DataType(Normal(a)) == DataType(a) && DataType(Normal(b)) == DataType(b);
    if DataType(a) == DataType(b) {
      match a
      case Str(x) => TextEqual(x, b.text);
      case Binary(_, x) => TextEqual(x, b.bytes);
      case ObjectId(x) => TextEqual(x, b.id);
      case Regex(_, _, _) => TextEqual(CompileRegex(a).value, CompileRegex(b).value);
      case Doc(fields) => DocumentsEqualOnNormalForms(fields, b.fields);
      case Arr(items) => ArraysEqualOnNormalForms(items, b.items);
      case _ => if IsNumber(a) { NumbersByValue(a, b); }
    }
  }

  lemma {:induction false} ArraysEqualOnNormalForms(s: seq<Value>, t: seq<Value>)
    requires AllCompilable(s) && AllCompilable(t)
    ensures CompareArrays(s, t) == Ok(Equal) <==> NormalItems(s) == NormalItems(t)
    decreases s
  {
    if s != [] && t != [] {
      EqualExactlyOnNormalForms(s[0], t[0]);
      CompareOrderNeverPanics(s[0], t[0]);
      ArraysEqualOnNormalForms(s[1..], t[1..]);
      assert NormalItems(s)[0] == Normal(s[0]) && NormalItems(s)[1..] == NormalItems(s[1..]);
      assert NormalItems(t)[0] == Normal(t[0]) && NormalItems(t)[1..] == NormalItems(t[1..]);
    }
  }

  lemma {:induction false} DocumentsEqualOnNormalForms(s: seq<Field>, t: seq<Field>)
    requires FieldsCompilable(s) && FieldsCompilable(t)
    ensures CompareDocuments(s, t) == Ok(Equal) <==> NormalFields(s) == NormalFields(t)
    decreases s
  {
    if s != [] && t != [] {
      EqualExactlyOnNormalForms(s[0].value, t[0].value);
      CompareOrderNeverPanics(s[0].value, t[0].value);
      TextEqual(s[0].key, t[0].key);
      DocumentsEqualOnNormalForms(s[1..], t[1..]);
      assert NormalFields(s)[0] == Field(s[0].key, Normal(s[0].value)) && NormalFields(s)[1..] == NormalFields(s[1..]);
      assert NormalFields(t)[0] == Field(t[0].key, Normal(t[0].value)) && NormalFields(t)[1..] == NormalFields(t[1..]);
    }
  }

  // ---- what Less means ----

  /** a and b agree up to k, where a has the smaller byte or has ended. */
  ghost predicate TextLessAt(a: Text, b: Text, k: nat) {
    k <= |a| && k < |b| && (forall i | 0 <= i < k :: a[i] == b[i]) && (k < |a| ==> a[k] < b[k])
  }

  /** Strings and byte strings are ordered by their first differing byte, a proper prefix first. */
  lemma {:induction false} TextDecidedAtFirstDifference(a: Text, b: Text)
    ensures CompareText(a, b) == Less <==> exists k: nat :: TextLessAt(a, b, k)
    decreases |a|
  {
    if a == [] {
      assert TextLessAt(a, b, 0) <==> b != [];
    } else if b != [] {
      TextDecidedAtFirstDifference(a[1..], b[1..]);
      assert TextLessAt(a, b, 0) <==> a[0] < b[0];
      if a[0] == b[0] {
        if k: nat :| TextLessAt(a[1..], b[1..], k) {
          assert forall i | 0 < i < |a| :: a[i] == a[1..][i - 1];
          assert forall i | 0 < i < |b| :: b[i] == b[1..][i - 1];
          assert TextLessAt(a, b, k + 1);
        }
        if k: nat :| TextLessAt(a, b, k) { assert TextLessAt(a[1..], b[1..], k - 1); }
      } else if k: nat :| TextLessAt(a, b, k) {
        assert k == 0;
      }
    }
  }

  predicate NumberLess(x: Double, y: Double) {
    && x != NaN && y != NaN && x != y
    && (x == NegInfinity || y == PosInfinity || (x.Finite? && y.Finite? && x.r < y.r))
  }

  /** Which of two scalars of one type is less. */
  ghost predicate ScalarLess(a: Value, b: Value)
    requires IsScalar(a) && DataType(a) == DataType(b) && Compilable(a) && Compilable(b)
  {
    match a
    case Str(x) => exists k: nat :: TextLessAt(x, b.text, k)
    case ObjectId(x) => exists k: nat :: TextLessAt(x, b.id, k)
    case Regex(_, _, _) => exists k: nat :: TextLessAt(CompileRegex(a).value, CompileRegex(b).value, k)
    case Binary(subtype, x) =>
      // by length, then by subtype, then by content
      |x| < |b.bytes|
      || (|x| == |b.bytes|
          && (subtype < b.subtype || (subtype == b.subtype && exists k: nat :: TextLessAt(x, b.bytes, k))))
    case Bool(x) => !x && b.b
    case Date(x) => x < b.millis
    case Timestamp(x) => x < b.ts
    case _ => NumberLess(Extended(a), Extended(b))
  }

  /** Across types the declared type order decides; within a scalar type, ScalarLess. */
  lemma ScalarsByTypeThenValue(a: Value, b: Value)
    requires IsScalar(a) && IsScalar(b) && Compilable(a) && Compilable(b)
    ensures CompareOrder(a, b) == Ok(Less) <==>
              DataType(a) < DataType(b) || (DataType(a) == DataType(b) && ScalarLess(a, b))
  {
    if DataType(a) == DataType(b) {
      match a
      case Str(x) => TextDecidedAtFirstDifference(x, b.text);
      case Binary(_, x) => TextDecidedAtFirstDifference(x, b.bytes);
      case ObjectId(x) => TextDecidedAtFirstDifference(x, b.id);
      case Regex(_, _, _) => TextDecidedAtFirstDifference(CompileRegex(a).value, CompileRegex(b).value);
      case _ =>
    }
  }

  /** s and t agree up to k, where s is less: by its element there, or by having ended. */
  ghost predicate LessAt(s: seq<Value>, t: seq<Value>, k: nat) {
    && k <= |s| && k < |t|
    && (forall i | 0 <= i < k :: CompareOrder(s[i], t[i]) == Ok(Equal))
    && (k < |s| ==> CompareOrder(s[k], t[k]) == Ok(Less))
  }

  /** Array order is decided at the first differing element, or by length after a common prefix. */
  lemma {:induction false} ArraysDecidedAtFirstDifference(s: seq<Value>, t: seq<Value>)
    requires AllCompilable(s) && AllCompilable(t)
    ensures CompareOrder(Arr(s), Arr(t)) == Ok(Less) <==> exists k: nat :: LessAt(s, t, k)
    decreases s
  {
    assert CompareOrder(Arr(s), Arr(t)) == CompareArrays(s, t);
    if s == [] {
      assert LessAt(s, t, 0) <==> t != [];
    } else if t != [] {
      CompareOrderNeverPanics(s[0], t[0]);
      ArraysDecidedAtFirstDifference(s[1..], t[1..]);
      assert LessAt(s, t, 0) <==> CompareOrder(s[0], t[0]) == Ok(Less);
      assert forall i | 0 < i < |s| :: s[i] == s[1..][i - 1];
      assert forall i | 0 < i < |t| :: t[i] == t[1..][i - 1];
      if CompareOrder(s[0], t[0]) == Ok(Equal) {
        if k: nat :| LessAt(s[1..], t[1..], k) { assert LessAt(s, t, k + 1); }
        if k: nat :| LessAt(s, t, k) { assert LessAt(s[1..], t[1..], k - 1); }
      } else if k: nat :| LessAt(s, t, k) {
        assert k == 0;
      }
    }
  }

  /** Two fields that do not decide: one key, and values of one type that compare Equal. */
  ghost predicate FieldsAgree(f: Field, g: Field) {
    f.key == g.key && CompareOrder(f.value, g.value) == Ok(Equal)
  }

  /** Which of two fields is less: by the type of its value, then by its key, then by its value. */
  ghost predicate FieldLess(f: Field, g: Field) {
    || DataType(f.value) < DataType(g.value)
    || (DataType(f.value) == DataType(g.value)
        && ((exists k: nat :: TextLessAt(f.key, g.key, k))
            || (f.key == g.key && CompareOrder(f.value, g.value) == Ok(Less))))
  }

  /** Like LessAt, for fields. */
  ghost predicate FieldsLessAt(s: seq<Field>, t: seq<Field>, k: nat) {
    && k <= |s| && k < |t|
    && (forall i | 0 <= i < k :: FieldsAgree(s[i], t[i]))
    && (k < |s| ==> FieldLess(s[k], t[k]))
  }

  lemma FieldsCompareAs(f: Field, g: Field)
    ensures CompareFields(f, g) == Ok(Equal) <==> FieldsAgree(f, g)
    ensures CompareFields(f, g) == Ok(Less) <==> FieldLess(f, g)
  {
    hide Compare, DataType;
    TextEqual(f.key, g.key);
    TextDecidedAtFirstDifference(f.key, g.key);
    hide CompareText, TextLessAt;
  }

  lemma FieldsLessAtTail(s: seq<Field>, t: seq<Field>)
    requires s != [] && t != [] && FieldsAgree(s[0], t[0])
    ensures (exists k: nat :: FieldsLessAt(s, t, k)) <==> exists k: nat :: FieldsLessAt(s[1..], t[1..], k)
  {
    AgreeingIsNotLess(s[0], t[0]);
    hide FieldsAgree, FieldLess;
    assert forall i | 0 < i < |s| :: s[i] == s[1..][i - 1];
    assert forall i | 0 < i < |t| :: t[i] == t[1..][i - 1];
    if k: nat :| FieldsLessAt(s[1..], t[1..], k) { assert FieldsLessAt(s, t, k + 1); }
    if k: nat :| FieldsLessAt(s, t, k) { assert FieldsLessAt(s[1..], t[1..], k - 1); }
  }

  lemma AgreeingIsNotLess(f: Field, g: Field)
    requires FieldsAgree(f, g)
    ensures !FieldLess(f, g)
  {
    FieldsCompareAs(f, g);
    hide FieldsAgree, FieldLess, CompareFields;
  }

  lemma FieldsLessAtHead(s: seq<Field>, t: seq<Field>)
    requires s != [] && t != [] && !FieldsAgree(s[0], t[0])
    ensures (exists k: nat :: FieldsLessAt(s, t, k)) <==> FieldLess(s[0], t[0])
  {
    hide FieldsAgree, FieldLess;
    assert FieldsLessAt(s, t, 0) <==> FieldLess(s[0], t[0]);
    if k: nat :| FieldsLessAt(s, t, k) { assert k == 0; }
  }

  lemma DocumentsByFields(s: seq<Field>, t: seq<Field>)
    ensures CompareOrder(Doc(s), Doc(t)) == CompareDocuments(s, t)
  {}

  /** Document order is decided at the first differing field, in stored field order: by the type of its value,
      then by its key, then by its value. */
  lemma {:induction false} DocumentsDecidedAtFirstDifference(s: seq<Field>, t: seq<Field>)
    requires FieldsCompilable(s) && FieldsCompilable(t)
    ensures CompareOrder(Doc(s), Doc(t)) == Ok(Less) <==> exists k: nat :: FieldsLessAt(s, t, k)
    decreases s
  {
    hide CompareFields, CompareOrder, Compilable;
    DocumentsByFields(s, t);
    if s == [] {
      assert FieldsLessAt(s, t, 0) <==> t != [];
    } else if t != [] {
      DocumentsNeverPanic(s, t);
      DocumentsDecidedAtFirstDifference(s[1..], t[1..]);
      DocumentsByFields(s[1..], t[1..]);
      FieldsCompareAs(s[0], t[0]);
      hide FieldsAgree, FieldLess;
      if CompareFields(s[0], t[0]) == Ok(Equal) {
        FieldsLessAtTail(s, t);
      } else {
        FieldsLessAtHead(s, t);
      }
    }
  }

  // ---- data types ----

  /** The types in ascending order, whatever the values. */
  lemma TypesInOrder(n: Value, s: Text, fields: seq<Field>, items: seq<Value>, subtype: Byte, bytes: Text, id: Id12,
                     flag: bool, millis: I64, ts: U64, pattern: Text, options: Text, parses: bool)
    requires IsNumber(n)
    ensures var chain := [Null, Double(NaN), n, Str(s), Doc(fields), Arr(items), Binary(subtype, bytes), ObjectId(id),
                          Bool(flag), Date(millis), Timestamp(ts), Regex(pattern, options, parses)];
            forall i, j | 0 <= i < j < |chain| :: CompareOrder(chain[i], chain[j]) == Ok(Less)
  {
    var chain := [Null, Double(NaN), n, Str(s), Doc(fields), Arr(items), Binary(subtype, bytes), ObjectId(id),
                  Bool(flag), Date(millis), Timestamp(ts), Regex(pattern, options, parses)];
    assert forall i | 0 <= i < |chain| :: DataType(chain[i]) == i + 1;
    forall i, j | 0 <= i < j < |chain| ensures CompareOrder(chain[i], chain[j]) == Ok(Less) {
      hide DataType, Compare;
    }
  }

  /** Except for arrays and NaN the filtering comparison is the ordering one. */
  lemma FilterIsOrderOutsideArrays(a: Value, b: Value)
    requires !a.Arr? && !MixedNaN(a, b)
    ensures Compare(a, b) == CompareOrder(a, b)
  {
    if DataType(a) != DataType(b) && IsScalar(a) && IsScalar(b) { TwoTypesByOrder(a, b); }
  }

  /** Of a regex's options i, m and s are its flags, x keeps it from compiling, others say nothing. */
  lemma FlagOfOption(letter: Byte)
    ensures RegexFlags([letter]) ==
            if letter == 'x' as int then None
            else if letter in {'i' as int, 'm' as int, 's' as int} then Some([letter]) else Some([])
  {
    assert [letter][1..] == [] && [letter] + [] == [letter];
    assert RegexFlags([]) == Some([]);
  }

  lemma {:induction false} FlagsAddUp(a: Text, b: Text)
    ensures RegexFlags(a + b) ==
            if RegexFlags(a).Some? && RegexFlags(b).Some? then Some(RegexFlags(a).value + RegexFlags(b).value) else None
    decreases |a|
  {
    if a == [] {
      assert a + b == b && RegexFlags(a) == Some([]);
      assert RegexFlags(b).Some? ==> [] + RegexFlags(b).value == RegexFlags(b).value;
    } else {
      assert (a + b)[0] == a[0] && (a + b)[1..] == a[1..] + b;
      FlagsAddUp(a[1..], b);
      if RegexFlags(a[1..]).Some? && RegexFlags(b).Some? {
        var x, y, z := [a[0]], RegexFlags(a[1..]).value, RegexFlags(b).value;
        assert x + (y + z) == (x + y) + z;
      }
    }
  }

  /** What is compared of a regex: its pattern behind its flags. */
  lemma RegexesCompareAsCompiled(pattern: Text)
    ensures CompileRegex(Regex(pattern, [], true)) == Some(pattern)
    ensures CompileRegex(Regex(pattern, ['q' as int, 'i' as int], true))
            == Some(['(' as int, '?' as int, 'i' as int, ')' as int] + pattern)
    ensures CompileRegex(Regex(pattern, ['x' as int], true)) == CompileRegex(Regex(pattern, [], false)) == None
  {
    FlagOfOption('q' as int);
    FlagOfOption('i' as int);
    FlagOfOption('x' as int);
    FlagsAddUp(['q' as int], ['i' as int]);
    assert ['q' as int] + ['i' as int] == ['q' as int, 'i' as int];
    assert RegexFlags(['q' as int, 'i' as int]) == Some([] + ['i' as int]) == Some(['i' as int]);
    assert [0x28, 0x3F] + ['i' as int] + [0x29] == ['(' as int, '?' as int, 'i' as int, ')' as int];
  }

  // ---- filtering comparison of an array with a non-array ----

  ghost predicate Matches(e: Value, b: Value) {
    DataType(e) == DataType(b) && Compare(e, b) == Ok(Equal)
  }

  lemma MatchSplits(items: seq<Value>, b: Value)
    requires items != []
    ensures (exists e | e in items :: Matches(e, b))
            <==> Matches(items[0], b) || exists e | e in items[1..] :: Matches(e, b)
  {
    hide Matches;
    assert items[0] in items && forall e :: e in items <==> e == items[0] || e in items[1..];
  }

  /** Equal exactly when some element of b's data type matches b; Less when none has b's data type. */
  lemma {:induction false} ArrayMatchesAnElement(items: seq<Value>, b: Value, last: CompareResult, comparable: bool)
    requires AllCompilable(items) && Compilable(b) && !b.Arr?
    requires comparable ==> last != Equal
    ensures ScanArray(items, b, last, comparable) == Ok(Equal) <==> exists e | e in items :: Matches(e, b)
    ensures !comparable && (forall e | e in items :: DataType(e) != DataType(b)) ==>
              ScanArray(items, b, last, comparable) == Ok(Less)
    decreases items
  {
    if items != [] {
      var byType := CompareTypeOrder(items[0], b);
      ComparePanicsExactlyOnMixedNaN(items[0], b);
      MatchSplits(items, b);
      assert Matches(items[0], b) <==> byType == Equal && Compare(items[0], b) == Ok(Equal);
      assert forall e | e in items[1..] :: e in items;
      if byType != Equal {
        ArrayMatchesAnElement(items[1..], b, byType, comparable);
      } else if Compare(items[0], b) != Ok(Equal) {
        ArrayMatchesAnElement(items[1..], b, Compare(items[0], b).result, true);
      }
    }
  }

  /** Without a match: Less when no element has b's data type, else as the last element compares. */
  lemma {:induction false} UnmatchedArrayByItsLast(items: seq<Value>, b: Value, last: CompareResult, comparable: bool)
    requires AllCompilable(items) && Compilable(b) && !b.Arr?
    requires NothingMatches(items, b)
    ensures ScanArray(items, b, last, comparable) ==
            if comparable || HasType(items, b) then
              (if items == [] then Ok(last) else CompareOrder(items[|items| - 1], b))
            else Ok(Less)
    decreases items
  {
    if items != [] {
      var byType := CompareTypeOrder(items[0], b);
      ComparePanicsExactlyOnMixedNaN(items[0], b);
      assert items[0] in items && forall e | e in items[1..] :: e in items;
      assert HasType(items, b) <==> byType == Equal || HasType(items[1..], b);
      if byType != Equal {
        UnmatchedArrayByItsLast(items[1..], b, byType, comparable);
      } else {
        UnmatchedArrayByItsLast(items[1..], b, Compare(items[0], b).result, true);
      }
    }
  }

  /** Some element has b's data type. */
  predicate HasType(items: seq<Value>, b: Value) {
    exists e :: e in items && DataType(e) == DataType(b)
  }

  /** When an array and a non-array compare in opposite directions: nothing matches, and the array is on the
      side of b that its data type puts it on. */
  ghost predicate ScanInverts(items: seq<Value>, b: Value) {
    && NothingMatches(items, b)
    && if DataType(b) > DataType(Arr(items)) then
         !HasType(items, b) || CompareOrder(items[|items| - 1], b) == Ok(Less)
       else HasType(items, b) && CompareOrder(items[|items| - 1], b) == Ok(Greater)
  }

  lemma OtherAgainstArray(items: seq<Value>, b: Value)
    requires !b.Arr?
    ensures Compare(b, Arr(items)) == Ok(if DataType(b) > DataType(Arr(items)) then Greater else Less)
  {}

  ghost predicate NothingMatches(items: seq<Value>, b: Value) {
    forall e | e in items :: !Matches(e, b)
  }

  /** What an array compares as, against a non-array. */
  lemma ArrayOutcome(items: seq<Value>, b: Value)
    requires AllCompilable(items) && Compilable(b) && !b.Arr?
    ensures Compare(Arr(items), b) ==
            if !NothingMatches(items, b) then Ok(Equal)
            else if HasType(items, b) then CompareOrder(items[|items| - 1], b) else Ok(Less)
  {
    assert Compare(Arr(items), b) == ScanArray(items, b, Equal, false);
    hide Compare, CompareOrder, ScanArray, Matches;
    ArrayMatchesAnElement(items, b, Equal, false);
    if NothingMatches(items, b) { UnmatchedArrayByItsLast(items, b, Equal, false); }
  }

  lemma ArrayAgainstOther(items: seq<Value>, b: Value)
    requires AllCompilable(items) && Compilable(b) && !b.Arr?
    ensures Compare(b, Arr(items)) == InvertOutcome(Compare(Arr(items), b)) <==> ScanInverts(items, b)
  {
    hide Compare, CompareOrder, NothingMatches, HasType, Compilable, AllCompilable;
    OtherAgainstArray(items, b);
    ArrayOutcome(items, b);
  }

  lemma TwoTypesByOrder(a: Value, b: Value)
    requires IsScalar(a) && IsScalar(b) && DataType(a) != DataType(b) && !MixedNaN(a, b)
    ensures CompareScalars(a, b) == Ok(CompareTypeOrder(a, b))
  {}

  lemma ScalarsOfTwoTypesInvert(a: Value, b: Value)
    requires IsScalar(a) && !b.Arr? && DataType(a) != DataType(b)
    ensures Compare(b, a) == InvertOutcome(Compare(a, b))
  {
    if IsScalar(b) {
      assert Compare(a, b) == CompareScalars(a, b) && Compare(b, a) == CompareScalars(b, a);
      hide Compare;
      if !MixedNaN(a, b) {
        TwoTypesByOrder(a, b);
        TwoTypesByOrder(b, a);
        hide CompareScalars;
      }
    }
  }

  lemma NoArraysInvert(a: Value, b: Value)
    requires Compilable(a) && Compilable(b) && (a.Arr? <==> b.Arr?)
    ensures Compare(b, a) == InvertOutcome(Compare(a, b))
  {
    if DataType(a) == DataType(b) {
      CompareInverts(a, b);
    } else if IsScalar(a) {
      ScalarsOfTwoTypesInvert(a, b);
    } else {
      ScalarsOfTwoTypesInvert(b, a);
    }
  }

  /** Compare alone is inverted by swapping its arguments exactly when both or neither are arrays, or else the
      scan of the one that is an array says so. */
  lemma CompareInvertsExactlyWhen(a: Value, b: Value)
    requires Compilable(a) && Compilable(b)
    ensures Compare(b, a) == InvertOutcome(Compare(a, b)) <==>
              || (a.Arr? <==> b.Arr?)
              || (a.Arr? && !b.Arr? && ScanInverts(a.items, b))
              || (b.Arr? && !a.Arr? && ScanInverts(b.items, a))
  {
    if a.Arr? <==> b.Arr? {
      NoArraysInvert(a, b);
    } else if a.Arr? {
      ArrayAgainstOther(a.items, b);
    } else {
      ArrayAgainstOther(b.items, a);
      InversionIsSymmetric(Compare(a, b), Compare(b, a));
    }
  }

  lemma InversionIsSymmetric(x: Outcome, y: Outcome)
    ensures x == InvertOutcome(y) <==> y == InvertOutcome(x)
  {}

  /** Pairs that are not inverted: an empty array with a number, and an array with a document it holds. */
  lemma CompareAloneIsNotAntisymmetric()
    ensures Compare(Arr([]), Int32(5)) == Ok(Less) && Compare(Int32(5), Arr([])) == Ok(Less)
    ensures Compare(Arr([Doc([])]), Doc([])) == Ok(Equal) && Compare(Doc([]), Arr([Doc([])])) == Ok(Less)
  {}
}
