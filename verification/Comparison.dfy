/**
 BSON comparison, internal/compat/ferretdb/internal/types/compare.go and
 compare_order.go. A Go panic is the outcome Panic, so that "this never panics"
 is a statement and not an assumption.
 */
module Comparison {
  import opened Optional
  import opened Values

  datatype CompareResult = Less | Equal | Greater

  datatype Outcome = Ok(result: CompareResult) | Panic {
    predicate IsFailure() { Panic? }
    function PropagateFailure(): Outcome requires Panic? { Panic }
    function Extract(): CompareResult requires Ok? { result }
  }

  function CompareInvert(r: CompareResult): CompareResult {
    match r
    case Less => Greater
    case Equal => Equal
    case Greater => Less
  }

  // ---- scalars ----

  function CompareInts(a: int, b: int): CompareResult {
    if a == b then Equal else if a < b then Less else Greater
  }

  /** Bytewise order, of strings and of bytes.Compare. */
  function CompareText(a: Text, b: Text): CompareResult {
    if a == [] && b == [] then Equal
    else if a == [] then Less
    else if b == [] then Greater
    else if a[0] != b[0] then CompareInts(a[0], b[0])
    else CompareText(a[1..], b[1..])
  }

  /** IEEE == and < on two doubles, neither of them NaN. */
  function CompareExtended(a: Double, b: Double): CompareResult
    requires a != NaN && b != NaN
  {
    if a == b then Equal
    else if a == NegInfinity || b == PosInfinity || (a.Finite? && b.Finite? && a.r < b.r) then Less
    else Greater
  }

  /** compareOrdered at float64: none of ==, <, > holds when an operand is NaN. */
  function CompareDoubles(a: Double, b: Double): Outcome {
    if a == NaN || b == NaN then Panic else Ok(CompareExtended(a, b))
  }

  /** A double against an integer through exact big floats, which cannot hold NaN. */
  function CompareNumbers(a: Double, b: I64): Outcome {
    if a == NaN then Panic else Ok(CompareExtended(a, Finite(b as real)))
  }

  function InvertOutcome(o: Outcome): Outcome {
    match o
    case Ok(r) => Ok(CompareInvert(r))
    case Panic => Panic
  }

  // The declared type order; equal ranks mean comparable values.
  function DataType(v: Value): nat {
    match v
    case Null => 1
    case Double(NaN) => 2
    case Double(_) => 3
    case Int32(_) => 3
    case Int64(_) => 3
    case Str(_) => 4
    case Doc(_) => 5
    case Arr(_) => 6
    case Binary(_, _) => 7
    case ObjectId(_) => 8
    case Bool(_) => 9
    case Date(_) => 10
    case Timestamp(_) => 11
    case Regex(_, _, _) => 12
  }

  function CompareTypeOrder(a: Value, b: Value): CompareResult {
    CompareInts(DataType(a), DataType(b))
  }

  function CompareBinary(a: Value, b: Value): CompareResult
    requires a.Binary? && b.Binary?
  {
    if |a.bytes| != |b.bytes| then CompareInts(|a.bytes|, |b.bytes|)
    else if a.subtype != b.subtype then CompareInts(a.subtype, b.subtype)
    else CompareText(a.bytes, b.bytes)
  }

  function CompareScalars(a: Value, b: Value): Outcome {
    if !IsScalar(a) || !IsScalar(b) then Ok(CompareTypeOrder(a, b))
    else
      match (a, b)
      case (Double(x), Double(y)) =>
        if x == NaN && y == NaN then Ok(Equal) else CompareDoubles(x, y)
      case (Double(x), Int32(y)) => CompareNumbers(x, y)
      case (Double(x), Int64(y)) => CompareNumbers(x, y)
      case (Str(x), Str(y)) => Ok(CompareText(x, y))
      case (Binary(_, _), Binary(_, _)) => Ok(CompareBinary(a, b))
      case (ObjectId(x), ObjectId(y)) => Ok(CompareText(x, y))
      case (Bool(x), Bool(y)) => Ok(if x == y then Equal else if y then Less else Greater)
      case (Date(x), Date(y)) => Ok(CompareInts(x, y))
      case (Null, Null) => Ok(Equal)
      case (Regex(_, _, _), Regex(_, _, _)) =>
        (match (CompileRegex(a), CompileRegex(b))
         case (Some(x), Some(y)) => Ok(CompareText(x, y))
         case _ => Panic)
      case (Int32(x), Double(y)) => InvertOutcome(CompareNumbers(y, x))
      case (Int32(x), Int32(y)) => Ok(CompareInts(x, y))
      case (Int32(x), Int64(y)) => Ok(CompareInts(x, y))
      case (Timestamp(x), Timestamp(y)) => Ok(CompareInts(x, y))
      case (Int64(x), Double(y)) => InvertOutcome(CompareNumbers(y, x))
      case (Int64(x), Int32(y)) => Ok(CompareInts(x, y))
      case (Int64(x), Int64(y)) => Ok(CompareInts(x, y))
      case _ => Ok(CompareTypeOrder(a, b))
  }

  // ---- documents and arrays ----

  /** The filtering comparison: an array also meets each of its elements. */
  function Compare(a: Value, b: Value): Outcome
    decreases a, 0
  {
    match a
    case Doc(fields) =>
      if b.Doc? then CompareDocuments(fields, b.fields) else Ok(CompareTypeOrder(a, b))
    case Arr(items) =>
      if b.Arr? then CompareArrays(items, b.items) else ScanArray(items, b, Equal, false)
    case _ => CompareScalars(a, b)
  }

  /** The ordering comparison: data types first, then Compare. */
  function CompareOrder(a: Value, b: Value): Outcome
    decreases a, 1
  {
    var byType := CompareTypeOrder(a, b);
    if byType != Equal then Ok(byType) else Compare(a, b)
  }

  /** Arrays, element by element; the shorter one is less. */
  function CompareArrays(docArr: seq<Value>, filterArr: seq<Value>): Outcome
    decreases docArr
  {
    if docArr == [] then Ok(if filterArr == [] then Equal else Less)
    else if filterArr == [] then Ok(Greater)
    else
      var order :- CompareOrder(docArr[0], filterArr[0]);
      if order != Equal then Ok(order)
      else
        var iteration :- Compare(docArr[0], filterArr[0]);
        if iteration != Equal then Ok(iteration) else CompareArrays(docArr[1..], filterArr[1..])
  }

  /** One field against another: type of the value, then key, then value. */
  function CompareFields(f: Field, g: Field): Outcome
    decreases f
  {
    var byType := CompareTypeOrder(f.value, g.value);
    if byType != Equal then Ok(byType)
    else
      var byKey := CompareText(f.key, g.key);
      if byKey != Equal then Ok(byKey) else Compare(f.value, g.value)
  }

  /** Documents, field by field in stored order; the shorter one is less. */
  function CompareDocuments(a: seq<Field>, b: seq<Field>): Outcome
    decreases a
  {
    if a == [] then Ok(if b == [] then Equal else Less)
    else if b == [] then Ok(Greater)
    else
      var field :- CompareFields(a[0], b[0]);
      if field != Equal then Ok(field) else CompareDocuments(a[1..], b[1..])
  }

  /**
   An array against a non-array: `last` and `comparable` are the two loop
   variables carried from element to element.
   */
  function ScanArray(items: seq<Value>, b: Value, last: CompareResult, comparable: bool): Outcome
    decreases items
  {
    if items == [] then Ok(if comparable then last else Less)
    else
      var byType := CompareTypeOrder(items[0], b);
      if byType != Equal then ScanArray(items[1..], b, byType, comparable)
      else
        var result :- Compare(items[0], b);
        if result == Equal then Ok(Equal) else ScanArray(items[1..], b, result, true)
  }

  // ---- the loops of the source ----

  /** compareArrays: the early returns, the index loop and its length checks. */
  method CompareArraysLoop(docArr: seq<Value>, filterArr: seq<Value>) returns (r: Outcome)
    ensures r == CompareArrays(docArr, filterArr)
  {
    if |filterArr| == 0 && |docArr| == 0 { return Ok(Equal); }
    if |filterArr| > 0 && |docArr| == 0 { return Ok(Less); }
    if |filterArr| == 0 { return Ok(Greater); }
    for i := 0 to |docArr|
      invariant i <= |filterArr|
      invariant CompareArrays(docArr[i..], filterArr[i..]) == CompareArrays(docArr, filterArr)
    {
      if i >= |filterArr| {
        return Ok(Greater);
      }
      var order := CompareOrder(docArr[i], filterArr[i]);
      if order != Ok(Equal) { return order; }
      var iteration := Compare(docArr[i], filterArr[i]);
      if iteration != Ok(Equal) { return iteration; }
      assert docArr[i..][1..] == docArr[i + 1..] && filterArr[i..][1..] == filterArr[i + 1..];
    }
    if |docArr| < |filterArr| { return Ok(Less); }
    return Ok(Equal);
  }

  /** compareDocuments: the early returns and the loop over the first document's keys. */
  method CompareDocumentsLoop(a: seq<Field>, b: seq<Field>) returns (r: Outcome)
    ensures r == CompareDocuments(a, b)
  {
    if |a| == 0 && |b| == 0 { return Ok(Equal); }
    if |a| == 0 && |b| > 0 { return Ok(Less); }
    if |b| == 0 { return Ok(Greater); }
    for i := 0 to |a|
      invariant i <= |b|
      invariant CompareDocuments(a[i..], b[i..]) == CompareDocuments(a, b)
    {
      if |b| == i { return Ok(Greater); }
      var byType := CompareTypeOrder(a[i].value, b[i].value);
      if byType != Equal { return Ok(byType); }
      var byKey := CompareScalars(Str(a[i].key), Str(b[i].key));
      if byKey != Ok(Equal) { return byKey; }
      var byValue := Compare(a[i].value, b[i].value);
      if byValue != Ok(Equal) { return byValue; }
      assert a[i..][1..] == a[i + 1..] && b[i..][1..] == b[i + 1..];
    }
    if |a| < |b| { return Ok(Less); }
    return Ok(Equal);
  }

  /** compareArray on a non-array: `result` and `comparable` updated in the loop. */
  method CompareArrayLoop(items: seq<Value>, b: Value) returns (r: Outcome)
    ensures r == if b.Arr? then CompareArrays(items, b.items) else ScanArray(items, b, Equal, false)
  {
    if b.Arr? {
      r := CompareArraysLoop(items, b.items);
      return;
    }
    var result := Equal;
    var comparable := false;
    for i := 0 to |items|
      invariant ScanArray(items[i..], b, result, comparable) == ScanArray(items, b, Equal, false)
    {
      assert items[i..][1..] == items[i + 1..];
      result := CompareTypeOrder(items[i], b);
      if result != Equal { continue; }
      var outcome := Compare(items[i], b);
      if outcome == Panic { return Panic; }
      result := outcome.result;
      if result == Equal { return Ok(Equal); }
      comparable := true;
    }
    if !comparable { return Ok(Less); }
    return Ok(result);
  }
}
