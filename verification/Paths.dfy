/**
 Dotted paths into documents, internal/compat/ferretdb/internal/types/path.go: reading by path,
 setting by path with creation of what is missing, and the test whether two paths conflict. The
 recursive definitions here are what the loops of the source are proved against.
 */
module Paths {
  import opened Optional
  import opened Values

  type Path = seq<Text>

  datatype PathCode = KeyNotFound | IndexInvalid | IndexOutOfBound | CannotAccess | CannotCreateField

  /** A PathError with its code, or an error without one. */
  datatype Error = PathError(code: PathCode) | Plain

  datatype Result<+T> = Ok(value: T) | Err(error: Error)

  // ---- fields of a document ----

  function Count(fields: seq<Field>, key: Text): nat {
    if fields == [] then 0
    else (if fields[0].key == key then 1 else 0) + Count(fields[1..], key)
  }

  /** The value of the first field with the given key. */
  function Find(fields: seq<Field>, key: Text): Option<Value> {
    if fields == [] then None
    else if fields[0].key == key then Some(fields[0].value)
    else Find(fields[1..], key)
  }

  /** The fields with the key's value replaced in place, or appended. */
  function SetField(fields: seq<Field>, key: Text, value: Value): seq<Field> {
    if fields == [] then [Field(key, value)]
    else if fields[0].key == key then [Field(key, value)] + fields[1..]
    else [fields[0]] + SetField(fields[1..], key, value)
  }

  lemma {:induction false} SetFieldThenFind(fields: seq<Field>, key: Text, value: Value, other: Text)
    ensures Find(SetField(fields, key, value), other) == if other == key then Some(value) else Find(fields, other)
  {
    if fields != [] && fields[0].key != key {
      SetFieldThenFind(fields[1..], key, value, other);
    }
  }

  function KeysOf(fields: seq<Field>): seq<Text> {
    if fields == [] then [] else [fields[0].key] + KeysOf(fields[1..])
  }

  /** Setting a field keeps the order of the keys; a new key comes last. */
  lemma {:induction false} SetFieldKeepsOrder(fields: seq<Field>, key: Text, value: Value)
    ensures KeysOf(SetField(fields, key, value)) == KeysOf(fields) + if Find(fields, key).Some? then [] else [key]
  {
    if fields != [] && fields[0].key != key {
      SetFieldKeepsOrder(fields[1..], key, value);
    } else if fields != [] {
      assert SetField(fields, key, value)[1..] == fields[1..];
    }
  }

  /** No document inside `v` has two fields of one name. */
  ghost predicate Unique(v: Value) {
    match v
    case Doc(fields) => (forall key: Text :: Count(fields, key) <= 1) && forall f | f in fields :: Unique(f.value)
    case Arr(items) => forall e | e in items :: Unique(e)
    case _ => true
  }

  // ---- array indexes ----

  predicate IsDigit(b: Byte) {
    0x30 <= b <= 0x39
  }

  function DigitValue(b: Byte): nat
    requires IsDigit(b)
  {
    var n: int := b;
    n - 0x30
  }

  predicate AllDigits(s: Text) {
    s != [] && forall b | b in s :: IsDigit(b)
  }

  function Number(s: Text): nat
    requires forall b | b in s :: IsDigit(b)
  {
    if s == [] then 0
    else
      assert IsDigit(s[|s| - 1]);
      Number(s[..|s| - 1]) * 10 + DigitValue(s[|s| - 1])
  }

  /** strconv.Atoi on a 64-bit machine: an optional sign and decimal digits, in range. */
  function Atoi(s: Text): Option<int> {
    var signed := s != [] && s[0] in {0x2B, 0x2D};
    var digits := if signed then s[1..] else s;
    if !AllDigits(digits) then None
    else
      var n: int := if signed && s[0] == 0x2D then 0 - Number(digits) else Number(digits);
      if -0x8000_0000_0000_0000 <= n < 0x8000_0000_0000_0000 then Some(n) else None
  }

  /** Digits without a sign or a superfluous zero. */
  predicate Canonical(s: Text) {
    AllDigits(s) && (s[0] == 0x30 ==> |s| == 1)
  }

  lemma {:induction false} CanonicalIsPositive(s: Text)
    requires Canonical(s) && s[0] != 0x30
    ensures Number(s) > 0
  {
    assert s[|s| - 1] in s;
    if |s| > 1 { CanonicalIsPositive(s[..|s| - 1]); }
  }

  lemma {:induction false} CanonicalTellsApart(a: Text, b: Text)
    requires Canonical(a) && Canonical(b) && Number(a) == Number(b)
    ensures a == b
    decreases |a|
  {
    var m, n := |a| - 1, |b| - 1;
    assert a[m] in a && b[n] in b;
    assert a[m] == b[n] && Number(a[..m]) == Number(b[..n]);
    if m > 0 { CanonicalIsPositive(a[..m]); }
    if n > 0 { CanonicalIsPositive(b[..n]); }
    if m > 0 && n > 0 { CanonicalTellsApart(a[..m], b[..n]); }
    assert a == a[..m] + [a[m]] && b == b[..n] + [b[n]];
  }

  lemma CanonicalIndexesDiffer(a: Text, b: Text)
    requires Canonical(a) && Canonical(b) && Atoi(a).Some? && Atoi(a) == Atoi(b)
    ensures a == b
  {
    assert IsDigit(a[0]) && IsDigit(b[0]);
    CanonicalTellsApart(a, b);
  }

  // ---- decimal numerals ----

  function DigitOf(d: nat): Byte
    requires d < 10
  {
    '0' as int + d
  }

  /** The decimal numeral of n. */
  function Decimal(n: nat): (s: Text)
    ensures s != []
  {
    if n < 10 then [DigitOf(n)] else Decimal(n / 10) + [DigitOf(n % 10)]
  }

  function Zeros(k: nat): Text {
    seq(k, _ => '0' as int)
  }

  lemma OneMoreDigit(s: Text, d: nat)
    requires d < 10 && forall b | b in s :: IsDigit(b)
    ensures forall b | b in s + [DigitOf(d)] :: IsDigit(b)
    ensures Number(s + [DigitOf(d)]) == Number(s) * 10 + d
  {
    var t := s + [DigitOf(d)];
    assert t[..|t| - 1] == s && t[|t| - 1] == DigitOf(d);
  }

  lemma {:induction false} ZerosAreZero(k: nat)
    ensures (forall b | b in Zeros(k) :: IsDigit(b)) && Number(Zeros(k)) == 0
  {
    if k > 0 {
      ZerosAreZero(k - 1);
      OneMoreDigit(Zeros(k - 1), 0);
      assert Zeros(k) == Zeros(k - 1) + [DigitOf(0)];
    }
  }

  lemma {:induction false} DecimalIsNumber(k: nat, n: nat)
    ensures AllDigits(Zeros(k) + Decimal(n)) && Number(Zeros(k) + Decimal(n)) == n
    decreases n
  {
    if n < 10 {
      ZerosAreZero(k);
      OneMoreDigit(Zeros(k), n);
    } else {
      DecimalIsNumber(k, n / 10);
      OneMoreDigit(Zeros(k) + Decimal(n / 10), n % 10);
      assert Zeros(k) + Decimal(n) == Zeros(k) + Decimal(n / 10) + [DigitOf(n % 10)];
    }
  }

  lemma DigitsAreRead(digits: Text)
    requires AllDigits(digits)
    ensures Atoi(digits) == if Number(digits) < 0x8000_0000_0000_0000 then Some(Number(digits)) else None
    ensures Atoi(['+' as int] + digits) == Atoi(digits)
    ensures Atoi(['-' as int] + digits)
            == if Number(digits) <= 0x8000_0000_0000_0000 then Some(0 - Number(digits)) else None
  {
    assert IsDigit(digits[0]);
    assert (['+' as int] + digits)[1..] == digits && (['-' as int] + digits)[1..] == digits;
    hide Number, AllDigits;
  }

  /** A decimal numeral, with zeros in front or not, is read as its number, up to the range of 64 bits. */
  lemma NumeralsAreRead(k: nat, n: nat)
    ensures Atoi(Zeros(k) + Decimal(n)) == if n < 0x8000_0000_0000_0000 then Some(n) else None
    ensures Atoi(['+' as int] + (Zeros(k) + Decimal(n))) == Atoi(Zeros(k) + Decimal(n))
    ensures Atoi(['-' as int] + (Zeros(k) + Decimal(n))) == if n <= 0x8000_0000_0000_0000 then Some(0 - n) else None
  {
    DecimalIsNumber(k, n);
    DigitsAreRead(Zeros(k) + Decimal(n));
  }

  /** Nothing else is read: what is, is such a numeral, perhaps signed. */
  lemma OnlyNumeralsAreRead(s: Text)
    requires Atoi(s).Some?
    ensures var digits := if s[0] in {'+' as int, '-' as int} then s[1..] else s;
            exists k: nat, n: nat :: digits == Zeros(k) + Decimal(n)
  {
    DigitsAreANumeral(if s[0] in {'+' as int, '-' as int} then s[1..] else s);
  }

  lemma {:induction false} DigitsAreANumeral(s: Text)
    requires AllDigits(s)
    ensures exists k: nat, n: nat :: s == Zeros(k) + Decimal(n)
    decreases |s|
  {
    var most, d := s[..|s| - 1], s[|s| - 1] - '0' as int;
    assert IsDigit(s[|s| - 1]) && s == most + [DigitOf(d)];
    if most == [] {
      assert s == Zeros(0) + Decimal(d);
    } else {
      DigitsAreANumeral(most);
      var k: nat, n: nat :| most == Zeros(k) + Decimal(n);
      if n == 0 {
        assert s == Zeros(k + 1) + Decimal(d);
      } else {
        assert Decimal(10 * n + d) == Decimal(n) + [DigitOf(d)];
        assert s == Zeros(k) + Decimal(10 * n + d);
      }
    }
  }

  // ---- reading ----

  /** One step into a value. */
  function Enter(v: Value, elem: Text): Result<Value> {
    match v
    case Doc(fields) =>
      (match Find(fields, elem) case Some(x) => Ok(x) case None => Err(PathError(KeyNotFound)))
    case Arr(items) =>
      (match Atoi(elem)
       case None => Err(PathError(IndexInvalid))
       case Some(i) =>
         if i < 0 then Err(PathError(IndexInvalid))
         else if i >= |items| then Err(PathError(IndexOutOfBound))
         else Ok(items[i]))
    case _ => Err(PathError(CannotAccess))
  }

  function GetAt(v: Value, path: Path): Result<Value>
    decreases |path|
  {
    if path == [] then Ok(v)
    else
      match Enter(v, path[0])
      case Ok(next) => GetAt(next, path[1..])
      case Err(e) => Err(e)
  }

  // ---- setting ----

  /** A chain of new documents down to the value. */
  function Nested(path: Path, value: Value): Value {
    if path == [] then value else Doc([Field(path[0], Nested(path[1..], value))])
  }

  function Padded(items: seq<Value>, length: nat): seq<Value> {
    items + seq(if length > |items| then length - |items| else 0, _ => Null)
  }

  function SetAt(v: Value, path: Path, value: Value): Result<Value>
    requires path != []
    decreases |path|
  {
    var elem, rest := path[0], path[1..];
    match v
    case Doc(fields) =>
      if rest == [] then Ok(Doc(SetField(fields, elem, value)))
      else (
        match Find(fields, elem)
        case None => Ok(Doc(SetField(fields, elem, Nested(rest, value))))
        case Some(x) =>
          match SetAt(x, rest, value)
          case Ok(x') => Ok(Doc(SetField(fields, elem, x')))
          case Err(e) => Err(e))
    case Arr(items) => (
      match Atoi(elem)
      case None => Err(if rest == [] then Plain else PathError(CannotCreateField))
      case Some(i) =>
        if i < 0 then Err(if rest == [] then Plain else PathError(IndexOutOfBound))
        else if rest == [] then Ok(Arr(Padded(items, i + 1)[i := value]))
        else if i < |items| then (
          match SetAt(items[i], rest, value)
          case Ok(x) => Ok(Arr(items[i := x]))
          case Err(e) => Err(e))
        else Ok(Arr(Padded(items, i) + [Nested(rest, value)])))
    case _ => Err(if rest == [] then Plain else PathError(CannotCreateField))
  }

  lemma {:induction false} GetNested(path: Path, value: Value)
    ensures GetAt(Nested(path, value), path) == Ok(value)
  {
    if path != [] {
      GetNested(path[1..], value);
      assert Find([Field(path[0], Nested(path[1..], value))], path[0]).Some?;
    }
  }

  /** Reading at the numeral of n goes on in element n. */
  lemma NumeralReadsElement(items: seq<Value>, k: nat, n: nat, rest: Path)
    ensures GetAt(Arr(items), [Zeros(k) + Decimal(n)] + rest) ==
            if n < |items| && n < 0x8000_0000_0000_0000 then GetAt(items[n], rest)
            else Err(PathError(if n < 0x8000_0000_0000_0000 then IndexOutOfBound else IndexInvalid))
  {
    NumeralsAreRead(k, n);
    assert ([Zeros(k) + Decimal(n)] + rest)[1..] == rest;
  }

  /** Setting at the numeral of n replaces element n, or sets inside it, and adds nulls before a new element. */
  lemma NumeralSetsElement(items: seq<Value>, k: nat, n: nat, rest: Path, value: Value)
    requires n < 0x8000_0000_0000_0000
    ensures SetAt(Arr(items), [Zeros(k) + Decimal(n)], value) ==
            Ok(Arr(seq(if n < |items| then |items| else n + 1, i requires i >= 0 =>
                     if i == n then value else if i < |items| then items[i] else Null)))
    ensures n < |items| && rest != [] ==>
              SetAt(Arr(items), [Zeros(k) + Decimal(n)] + rest, value) ==
              match SetAt(items[n], rest, value)
              case Ok(x) => Ok(Arr(items[n := x]))
              case Err(e) => Err(e)
  {
    NumeralsAreRead(k, n);
    assert ([Zeros(k) + Decimal(n)] + rest)[1..] == rest;
    var after := seq(if n < |items| then |items| else n + 1, i requires i >= 0 =>
                       if i == n then value else if i < |items| then items[i] else Null);
    assert Padded(items, n + 1)[n := value] == after;
  }

  /** What was set is what is read, through new documents and padded arrays too. */
  lemma {:induction false} SetThenGet(v: Value, path: Path, value: Value)
    requires path != [] && SetAt(v, path, value).Ok?
    ensures GetAt(SetAt(v, path, value).value, path) == Ok(value)
    decreases |path|
  {
    var elem, rest := path[0], path[1..];
    GetNested(rest, value);
    match v
    case Doc(fields) =>
      var x := if rest == [] then value
               else if Find(fields, elem).Some? then SetAt(Find(fields, elem).value, rest, value).value
               else Nested(rest, value);
      SetFieldThenFind(fields, elem, x, elem);
      if rest != [] && Find(fields, elem).Some? { SetThenGet(Find(fields, elem).value, rest, value); }
    case Arr(items) =>
      var i := Atoi(elem).value;
      if rest != [] && i < |items| { SetThenGet(items[i], rest, value); }
    case _ =>
  }

  // ---- conflicts ----

  /** One path is the beginning of the other. */
  predicate Overlap(p: Path, q: Path) {
    p <= q || q <= p
  }

  /** In the value v the two paths part: at a document by name, at an array by index. */
  predicate Apart(v: Value, p: Path, q: Path)
    decreases |p|
  {
    if p == [] || q == [] then false
    else
      match v
      case Doc(fields) =>
        if p[0] != q[0] then true
        else (match Find(fields, p[0]) case Some(x) => Apart(x, p[1..], q[1..]) case None => false)
      case Arr(items) =>
        if Atoi(p[0]) == None || Atoi(p[0]) != Atoi(q[0]) then true
        else
          var i := Atoi(p[0]).value;
          0 <= i < |items| && Apart(items[i], p[1..], q[1..])
      case _ => false
  }

  /** What replaces the value of the first element when a path is set in a document. */
  function SetInside(fields: seq<Field>, path: Path, value: Value): Value
    requires path != [] && SetAt(Doc(fields), path, value).Ok?
  {
    if |path| == 1 then value
    else if Find(fields, path[0]).Some? then SetAt(Find(fields, path[0]).value, path[1..], value).value
    else Nested(path[1..], value)
  }

  /** Setting a path leaves alone what a path reads that is apart from it. */
  lemma {:induction false} ApartKeepsItsValue(v: Value, path: Path, value: Value, other: Path)
    requires path != [] && SetAt(v, path, value).Ok? && GetAt(v, other).Ok? && Apart(v, path, other)
    ensures GetAt(SetAt(v, path, value).value, other) == GetAt(v, other)
    decreases |path|
  {
    var elem, rest := path[0], path[1..];
    match v
    case Doc(fields) =>
      SetFieldThenFind(fields, elem, SetInside(fields, path, value), other[0]);
      if elem == other[0] { ApartKeepsItsValue(Find(fields, elem).value, rest, value, other[1..]); }
    case Arr(items) =>
      if Atoi(elem) == Atoi(other[0]) { ApartKeepsItsValue(items[Atoi(elem).value], rest, value, other[1..]); }
    case _ =>
  }

  /** Whether a path can be set does not depend on the value. */
  lemma {:induction false} SuccessIgnoresValue(v: Value, path: Path, a: Value, b: Value)
    requires path != []
    ensures SetAt(v, path, a).Ok? <==> SetAt(v, path, b).Ok?
    decreases |path|
  {
    var elem, rest := path[0], path[1..];
    hide SetField, Nested, Padded, Find, Atoi;
    match v
    case Doc(fields) =>
      if rest != [] && Find(fields, elem).Some? { SuccessIgnoresValue(Find(fields, elem).value, rest, a, b); }
    case Arr(items) =>
      if rest != [] && Atoi(elem).Some? && 0 <= Atoi(elem).value < |items| {
        SuccessIgnoresValue(items[Atoi(elem).value], rest, a, b);
      }
    case _ =>
  }

  /** A path that is not apart is disturbed by setting one boolean or the other. */
  lemma {:induction false} OthersAreDisturbed(v: Value, path: Path, other: Path)
    requires path != [] && SetAt(v, path, Bool(true)).Ok? && SetAt(v, path, Bool(false)).Ok?
    requires GetAt(v, other).Ok? && !Apart(v, path, other)
    ensures GetAt(SetAt(v, path, Bool(true)).value, other) != GetAt(v, other)
         || GetAt(SetAt(v, path, Bool(false)).value, other) != GetAt(v, other)
    decreases |path|
  {
    var elem, rest := path[0], path[1..];
    SetThenGet(v, path, Bool(true));
    SetThenGet(v, path, Bool(false));
    if other != [] {
      match v
      case Doc(fields) =>
        SetFieldThenFind(fields, elem, SetInside(fields, path, Bool(true)), elem);
        SetFieldThenFind(fields, elem, SetInside(fields, path, Bool(false)), elem);
        if rest != [] { OthersAreDisturbed(Find(fields, elem).value, rest, other[1..]); }
      case Arr(items) =>
        if rest != [] { OthersAreDisturbed(items[Atoi(elem).value], rest, other[1..]); }
      case _ =>
    }
  }

  /** A path that resolves keeps its value whatever another path is set to, exactly when the two are apart. */
  lemma OthersKeepTheirValueExactlyWhenApart(v: Value, path: Path, other: Path)
    requires path != [] && SetAt(v, path, Null).Ok? && GetAt(v, other).Ok?
    ensures (forall value | SetAt(v, path, value).Ok? :: GetAt(SetAt(v, path, value).value, other) == GetAt(v, other))
       <==> Apart(v, path, other)
  {
    if Apart(v, path, other) {
      forall value | SetAt(v, path, value).Ok? ensures GetAt(SetAt(v, path, value).value, other) == GetAt(v, other) {
        ApartKeepsItsValue(v, path, value, other);
      }
    } else {
      SuccessIgnoresValue(v, path, Null, Bool(true));
      SuccessIgnoresValue(v, path, Null, Bool(false));
      OthersAreDisturbed(v, path, other);
    }
  }

  /** Elements that read as an index are written in the canonical way. */
  predicate Plainly(p: Path) {
    forall e | e in p :: Atoi(e).Some? ==> Canonical(e)
  }

  /** With canonical indexes, paths of which neither begins the other are apart in every value that the second
      resolves in. */
  lemma {:induction false} NoOverlapIsApart(v: Value, p: Path, q: Path)
    requires !Overlap(p, q) && Plainly(p) && Plainly(q) && GetAt(v, q).Ok?
    ensures Apart(v, p, q)
    decreases |p|
  {
    if p[0] == q[0] {
      assert p == [p[0]] + p[1..] && q == [q[0]] + q[1..];
      NoOverlapIsApart(Enter(v, q[0]).value, p[1..], q[1..]);
    } else if Atoi(p[0]).Some? && Atoi(p[0]) == Atoi(q[0]) {
      CanonicalIndexesDiffer(p[0], q[0]);
    }
  }

  lemma {:induction false} NestedHoldsNothingElse(path: Path, value: Value, other: Path)
    requires Apart(Nested(path, value), path, other)
    ensures GetAt(Nested(path, value), other).Err?
    decreases |path|
  {
    var fields := [Field(path[0], Nested(path[1..], value))];
    assert Find(fields[1..], other[0]).None?;
    if path[0] == other[0] { NestedHoldsNothingElse(path[1..], value, other[1..]); }
  }

  /** Apart from the path nothing comes into being, except nulls that fill the gap in front of a new array
      element. */
  lemma {:induction false} OnlyGapsAppear(v: Value, path: Path, value: Value, other: Path)
    requires path != [] && SetAt(v, path, value).Ok? && Apart(SetAt(v, path, value).value, path, other)
    requires GetAt(v, other).Err? && GetAt(SetAt(v, path, value).value, other).Ok?
    ensures GetAt(SetAt(v, path, value).value, other) == Ok(Null)
    decreases |path|
  {
    var elem, rest := path[0], path[1..];
    hide SetField, Find, Atoi;
    match v
    case Doc(fields) =>
      SetFieldThenFind(fields, elem, SetInside(fields, path, value), other[0]);
      if elem == other[0] && rest != [] {
        if Find(fields, elem).Some? {
          OnlyGapsAppear(Find(fields, elem).value, rest, value, other[1..]);
        } else {
          NestedHoldsNothingElse(rest, value, other[1..]);
        }
      }
    case Arr(items) =>
      var i := Atoi(elem).value;
      if Atoi(elem) == Atoi(other[0]) && rest != [] {
        if i < |items| {
          OnlyGapsAppear(items[i], rest, value, other[1..]);
        } else {
          NestedHoldsNothingElse(rest, value, other[1..]);
        }
      }
    case _ =>
  }

  /** How many elements of the path but its last already lead somewhere. */
  function Resolved(v: Value, path: Path): nat
    requires path != []
    decreases |path|
  {
    if |path| > 1 && Enter(v, path[0]).Ok? then 1 + Resolved(Enter(v, path[0]).value, path[1..]) else 0
  }

  predicate CanHold(v: Value, elem: Text) {
    v.Doc? || (v.Arr? && Atoi(elem).Some? && Atoi(elem).value >= 0)
  }

  /** Setting succeeds exactly when the place where the path stops resolving is a document, or an array that is
      given an index. */
  lemma {:induction false} SettingSucceedsExactlyWhen(v: Value, path: Path, value: Value)
    requires path != []
    ensures Resolved(v, path) < |path| && GetAt(v, path[..Resolved(v, path)]).Ok?
    ensures SetAt(v, path, value).Ok? <==> CanHold(GetAt(v, path[..Resolved(v, path)]).value, path[Resolved(v, path)])
    decreases |path|
  {
    var k := Resolved(v, path);
    if k > 0 {
      SettingSucceedsExactlyWhen(Enter(v, path[0]).value, path[1..], value);
      assert path[..k][1..] == path[1..][..k - 1] && path[1..][k - 1] == path[k];
    }
  }

  /** Otherwise it fails: without a code when only the last element is missing, for an index below zero when the
      place is an array, and because no field can be created there in all other cases. */
  lemma {:induction false} SettingFailsAs(v: Value, path: Path, value: Value)
    requires path != [] && SetAt(v, path, value).Err?
    ensures var k := Resolved(v, path);
            && k < |path| && GetAt(v, path[..k]).Ok?
            && SetAt(v, path, value) == Err(
                 if k == |path| - 1 then Plain
                 else if GetAt(v, path[..k]).value.Arr? && Atoi(path[k]).Some? then PathError(IndexOutOfBound)
                 else PathError(CannotCreateField))
    decreases |path|
  {
    var k := Resolved(v, path);
    if k > 0 {
      SettingFailsAs(Enter(v, path[0]).value, path[1..], value);
      assert path[..k][1..] == path[1..][..k - 1] && path[1..][k - 1] == path[k];
    }
  }

  /** Where a path stops being readable: at a scalar, at a name the document has not, at an element that is no
      index of the array, or at one behind its end. */
  lemma ReadingFailsAs(v: Value, path: Path, k: nat)
    requires k < |path| && GetAt(v, path[..k]).Ok?
    ensures var w, elem := GetAt(v, path[..k]).value, path[k];
            && (IsScalar(w) ==> GetAt(v, path) == Err(PathError(CannotAccess)))
            && (w.Doc? && (forall f | f in w.fields :: f.key != elem) ==> GetAt(v, path) == Err(PathError(KeyNotFound)))
            && (w.Arr? && (Atoi(elem).None? || Atoi(elem).value < 0) ==> GetAt(v, path) == Err(PathError(IndexInvalid)))
            && (w.Arr? && Atoi(elem).Some? && Atoi(elem).value >= |w.items| ==>
                  GetAt(v, path) == Err(PathError(IndexOutOfBound)))
  {
    GetSplits(v, path, k);
    var w, elem := GetAt(v, path[..k]).value, path[k];
    assert path[k..][0] == elem;
    if w.Doc? && forall f | f in w.fields :: f.key != elem { NowhereFound(w.fields, elem); }
  }

  lemma {:induction false} NowhereFound(fields: seq<Field>, key: Text)
    requires forall f | f in fields :: f.key != key
    ensures Find(fields, key) == None
  {
    if fields != [] { NowhereFound(fields[1..], key); }
  }

  // ---- the loops of the source ----

  lemma {:induction false} GetSplits(v: Value, path: Path, k: nat)
    requires k <= |path| && GetAt(v, path[..k]).Ok?
    ensures GetAt(v, path) == GetAt(GetAt(v, path[..k]).value, path[k..])
    decreases k
  {
    if k > 0 {
      assert path[..k][1..] == path[1..][..k - 1] && path[1..][k - 1..] == path[k..];
      GetSplits(Enter(v, path[0]).value, path[1..], k - 1);
    }
  }

  /** It panics on a repeated key. */
  method GetByPath(comp: Value, path: Path) returns (r: Result<Value>)
    requires Unique(comp)
    ensures r == GetAt(comp, path)
  {
    var next := comp;
    for i := 0 to |path|
      invariant GetAt(next, path[i..]) == GetAt(comp, path)
    {
      var p := path[i];
      assert path[i..][1..] == path[i + 1..];
      match next {
        case Doc(fields) =>
          var x := Find(fields, p);
          if x == None { return Err(PathError(KeyNotFound)); }
          next := x.value;
        case Arr(items) =>
          var index := Atoi(p);
          if index == None { return Err(PathError(IndexInvalid)); }
          if index.value < 0 { return Err(PathError(IndexInvalid)); }
          if index.value >= |items| { return Err(PathError(IndexOutOfBound)); }
          next := items[index.value];
        case _ =>
          return Err(PathError(CannotAccess));
      }
    }
    return Ok(next);
  }

  datatype Conflict = NoConflict | Overwrite | Collision(part: Path)

  /** The first conflict with any of the earlier paths, if there is one. */
  method IsConflictPath(paths: seq<Path>, path: Path) returns (r: Conflict)
    requires path != [] && forall p | p in paths :: p != []
    ensures r == NoConflict <==> forall p | p in paths :: !(p <= path) && !(path <= p)
    ensures r != NoConflict ==>
              exists i :: 0 <= i < |paths|
                && (if path <= paths[i] then r == Overwrite
                    else paths[i] <= path && r == Collision(path[|paths[i]|..]))
                && forall j | 0 <= j < i :: !(paths[j] <= path) && !(path <= paths[j])
  {
    for i := 0 to |paths|
      invariant forall j | 0 <= j < i :: !(paths[j] <= path) && !(path <= paths[j])
    {
      var p := paths[i];
      var target, prefix := p, path;
      if |target| < |prefix| { target, prefix := prefix, target; }
      var different := false;
      for k := 0 to |prefix|
        invariant !different && forall m | 0 <= m < k :: prefix[m] == target[m]
      {
        if prefix[k] != target[k] {
          different := true;
          break;
        }
      }
      assert different <==> !(p <= path) && !(path <= p) by {
        if !different { assert prefix <= target; }
      }
      if different { continue; }
      assert p in paths;
      if |p| >= |path| {
        assert path <= p;
        return Overwrite;
      }
      assert !(path <= p);
      return Collision(target[|prefix|..]);
    }
    return NoConflict;
  }

  /** A path accepted against earlier ones leaves what one of them reads alone exactly when the two are apart in
      the document, and always when indexes are written canonically. */
  lemma AcceptedPathsDoNotDisturb(v: Value, paths: seq<Path>, path: Path, p: Path)
    requires path != [] && p in paths && forall q | q in paths :: !Overlap(q, path)
    requires SetAt(v, path, Null).Ok? && GetAt(v, p).Ok?
    ensures (forall value | SetAt(v, path, value).Ok? :: GetAt(SetAt(v, path, value).value, p) == GetAt(v, p))
       <==> Apart(v, path, p)
    ensures Plainly(path) && Plainly(p) ==> Apart(v, path, p)
  {
    OthersKeepTheirValueExactlyWhenApart(v, path, p);
    if Plainly(path) && Plainly(p) { NoOverlapIsApart(v, path, p); }
  }

  /** Two spellings of one index do not conflict and yet name the same element. */
  lemma SpellingsDisturb()
    ensures var a, one, padded := [0x61], [0x31], [0x30, 0x31];
            var v := Doc([Field(a, Arr([Null, Null]))]);
            !Overlap([a, padded], [a, one]) && GetAt(v, [a, one]) == Ok(Null)
            && SetAt(v, [a, padded], Bool(true)).Ok?
            && GetAt(SetAt(v, [a, padded], Bool(true)).value, [a, one]) == Ok(Bool(true))
  {
    var a: Text, one: Text, padded: Text := [0x61], [0x31], [0x30, 0x31];
    var v := Doc([Field(a, Arr([Null, Null]))]);
    var zero: Text := [0x30];
    assert padded[..1] == zero && one[..0] == [] && zero[..0] == [];
    assert Number(zero) == 0 && Number(one) == 1 && Number(padded) == 1;
    assert AllDigits(one) && AllDigits(padded);
    assert Atoi(one) == Some(1) && Atoi(padded) == Some(1);
    assert SetAt(Arr([Null, Null]), [padded], Bool(true)) == Ok(Arr([Null, Bool(true)])) by {
      assert Padded([Null, Null], 2) == [Null, Null] && [padded][1..] == [];
      assert [Null, Null][1 := Bool(true)] == [Null, Bool(true)];
    }
    assert GetAt(Arr([Null, Null]), [one]) == Ok(Null) && GetAt(Arr([Null, Bool(true)]), [one]) == Ok(Bool(true)) by {
      assert [one][1..] == [];
    }
    assert Enter(v, a) == Ok(Arr([Null, Null]));
    assert [a, one][1..] == [one] && [a, padded][1..] == [padded];
    var v' := SetAt(v, [a, padded], Bool(true)).value;
    assert v' == Doc([Field(a, Arr([Null, Bool(true)]))]);
    assert Enter(v', a) == Ok(Arr([Null, Bool(true)]));
  }
}
