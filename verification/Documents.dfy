/**
 The document of internal/compat/ferretdb/internal/types/document.go: a sequence of fields
 together with a count of the fields of each name, changed in place. Documents and arrays
 nested inside are values here; writing to one rewrites it at its path.
 */
module Documents {
  import opened Optional
  import opened Values
  import opened Paths

  const ID: Text := [0x5F, 0x69, 0x64] // _id

  /** Setting `_id` makes it the first key exactly when the document was empty or began with it; a new one
      behind other fields is the last. */
  lemma IdIsFirstExactlyWhen(fields: seq<Field>, value: Value)
    ensures var keys := KeysOf(SetField(fields, ID, value));
            && keys != [] && (keys[0] == ID <==> fields == [] || fields[0].key == ID)
            && (ID !in KeysOf(fields) ==> keys[|keys| - 1] == ID)
  {
    SetFieldKeepsOrder(fields, ID, value);
    FindAmongKeys(fields, ID);
  }

  lemma {:induction false} FindAmongKeys(fields: seq<Field>, key: Text)
    ensures Find(fields, key).Some? <==> key in KeysOf(fields)
  {
    if fields != [] { FindAmongKeys(fields[1..], key); }
  }

  /** In the document with the one field `v`, a new `_id` comes second. */
  lemma IdComesSecond(value: Value)
    ensures KeysOf(SetField([Field([0x76], Null)], ID, value)) == [['v' as int], ['_' as int, 'i' as int, 'd' as int]]
  {
    SetFieldKeepsOrder([Field([0x76], Null)], ID, value);
    assert KeysOf([Field([0x76], Null)]) == [[0x76]] + KeysOf([]);
    assert Find([Field([0x76], Null)], ID) == Find([], ID) == None;
  }

  lemma {:induction false} CountOfBoth(a: seq<Field>, b: seq<Field>, key: Text)
    ensures Count(a + b, key) == Count(a, key) + Count(b, key)
  {
    if a == [] {
      assert a + b == b;
    } else {
      CountOfBoth(a[1..], b, key);
      assert (a + b)[1..] == a[1..] + b;
    }
  }

  lemma {:induction false} FindCounts(fields: seq<Field>, key: Text)
    ensures Find(fields, key).Some? <==> Count(fields, key) > 0
  {
    if fields != [] { FindCounts(fields[1..], key); }
  }

  lemma {:induction false} SetFieldCounts(fields: seq<Field>, key: Text, value: Value, k: Text)
    ensures Count(SetField(fields, key, value), k) == if k == key && Count(fields, k) == 0 then 1 else Count(fields, k)
  {
    if fields == [] {
      assert SetField(fields, key, value)[1..] == [];
    } else if fields[0].key == key {
      assert SetField(fields, key, value)[1..] == fields[1..];
    } else {
      SetFieldCounts(fields[1..], key, value, k);
      assert SetField(fields, key, value)[1..] == SetField(fields[1..], key, value);
    }
  }

  predicate Before(fields: seq<Field>, i: nat, key: Text)
    requires i <= |fields|
  {
    forall j | 0 <= j < i :: fields[j].key != key
  }

  /** The i-th field is the first with its key. */
  lemma {:induction false} FirstAt(fields: seq<Field>, i: nat, key: Text, value: Value)
    requires i < |fields| && Before(fields, i, key) && fields[i].key == key
    ensures Find(fields, key) == Some(fields[i].value) && SetField(fields, key, value) == fields[i := Field(key, value)]
  {
    if i > 0 {
      FirstAt(fields[1..], i - 1, key, value);
    }
  }

  lemma {:induction false} NowhereIn(fields: seq<Field>, key: Text, value: Value)
    ensures Before(fields, |fields|, key) <==> Count(fields, key) == 0
    ensures Count(fields, key) == 0 ==>
            Find(fields, key) == None && SetField(fields, key, value) == fields + [Field(key, value)]
  {
    if fields != [] {
      NowhereIn(fields[1..], key, value);
      assert Before(fields, |fields|, key) <==> fields[0].key != key && Before(fields[1..], |fields| - 1, key);
    }
  }

  /** `keys` holds exactly the number of fields of each name. */
  ghost predicate Counted(keys: map<Text, nat>, fields: seq<Field>) {
    forall k: Text :: (k in keys <==> Count(fields, k) > 0) && (k in keys ==> keys[k] == Count(fields, k))
  }

  lemma OneMoreCounted(keys: map<Text, nat>, fields: seq<Field>, key: Text, value: Value)
    requires Counted(keys, fields)
    ensures Counted(keys[key := 1 + if key in keys then keys[key] else 0], fields + [Field(key, value)])
  {
    forall k: Text ensures Count(fields + [Field(key, value)], k) == Count(fields, k) + if k == key then 1 else 0 {
      CountOfBoth(fields, [Field(key, value)], k);
      assert [Field(key, value)][1..] == [];
    }
  }

  lemma RemovedCounted(keys: map<Text, nat>, fields: seq<Field>, i: nat)
    requires i < |fields| && Counted(keys, fields) && Count(fields, fields[i].key) == 1
    ensures Counted(keys - {fields[i].key}, fields[..i] + fields[i + 1..])
  {
    var f := fields[i];
    forall k: Text ensures Count(fields[..i] + fields[i + 1..], k) == Count(fields, k) - if k == f.key then 1 else 0 {
      RemovedCount(fields, i, k);
    }
  }

  lemma RemovedCount(fields: seq<Field>, i: nat, k: Text)
    requires i < |fields|
    ensures Count(fields[..i] + fields[i + 1..], k) == Count(fields, k) - if k == fields[i].key then 1 else 0
  {
    assert fields == fields[..i] + ([fields[i]] + fields[i + 1..]);
    CountOfBoth(fields[..i], [fields[i]] + fields[i + 1..], k);
    CountOfBoth([fields[i]], fields[i + 1..], k);
    CountOfBoth(fields[..i], fields[i + 1..], k);
    assert [fields[i]][1..] == [];
  }

  lemma SetCounted(keys: map<Text, nat>, fields: seq<Field>, key: Text, value: Value)
    requires Counted(keys, fields) && Count(fields, key) > 0
    ensures Counted(keys, SetField(fields, key, value))
  {
    forall k: Text ensures Count(SetField(fields, key, value), k) == Count(fields, k) {
      SetFieldCounts(fields, key, value, k);
    }
  }

  class Document {
    var keys: map<Text, nat>
    var fields: seq<Field>
    var frozen: bool

    ghost predicate Valid()
      reads this
    {
      Counted(keys, fields)
    }

    /** NewDocument: field names may repeat. */
    constructor (pairs: seq<Field>)
      ensures Valid() && fields == pairs && !frozen
    {
      keys, fields, frozen := map[], [], false;
      new;
      for i := 0 to |pairs|
        invariant Valid() && fields == pairs[..i] && !frozen
      {
        var f := pairs[i];
        OneMoreCounted(keys, fields, f.key, f.value);
        keys := keys[f.key := 1 + if f.key in keys then keys[f.key] else 0];
        fields := fields + [f];
        assert pairs[..i + 1] == pairs[..i] + [f];
      }
      assert pairs[..|pairs|] == pairs;
    }

    method Has(key: Text) returns (r: bool)
      requires Valid()
      ensures r <==> Find(fields, key).Some?
    {
      FindCounts(fields, key);
      return key in keys;
    }

    /** It panics on a repeated key. */
    method Get(key: Text) returns (r: Option<Value>)
      requires Valid() && Count(fields, key) <= 1
      ensures r == Find(fields, key)
    {
      for i := 0 to |fields|
        invariant Before(fields, i, key)
      {
        if fields[i].key == key {
          FirstAt(fields, i, key, Null);
          return Some(fields[i].value);
        }
      }
      NowhereIn(fields, key, Null);
      return None;
    }

    /** It panics on a frozen document and on a repeated key. */
    method Set(key: Text, value: Value)
      requires Valid() && !frozen && Count(fields, key) <= 1
      modifies this`keys, this`fields
      ensures Valid() && fields == SetField(old(fields), key, value)
    {
      NowhereIn(fields, key, value);
      var keyCount := if key in keys then keys[key] else 0;
      if keyCount == 1 {
        for i := 0 to |fields|
          invariant Before(fields, i, key) && fields == old(fields) && keys == old(keys)
        {
          if fields[i].key == key {
            FirstAt(fields, i, key, value);
            SetCounted(keys, fields, key, value);
            fields := fields[i := Field(key, value)];
            return;
          }
        }
        assert false; // the key map would name a missing field
      }
      OneMoreCounted(keys, fields, key, value);
      keys := keys[key := 1];
      fields := fields + [Field(key, value)];
    }

    /** It panics on a frozen document and on a repeated key. */
    method Remove(key: Text) returns (r: Option<Value>)
      requires Valid() && !frozen && Count(fields, key) <= 1
      modifies this`keys, this`fields
      ensures Valid() && r == Find(old(fields), key)
      ensures if r == None then fields == old(fields) && keys == old(keys)
              else exists i :: 0 <= i < |old(fields)| && old(fields)[i].key == key
                               && fields == old(fields)[..i] + old(fields)[i + 1..]
    {
      NowhereIn(fields, key, Null);
      for i := 0 to |fields|
        invariant Before(fields, i, key) && fields == old(fields) && keys == old(keys)
      {
        if fields[i].key == key {
          FirstAt(fields, i, key, Null);
          RemovedCounted(keys, fields, i);
          r := Some(fields[i].value);
          keys := keys - {key};
          fields := fields[..i] + fields[i + 1..];
          return;
        }
      }
      return None;
    }

    /** The first key that repeats an earlier one. */
    method FindDuplicateKey() returns (r: Option<Text>)
      requires Valid()
      ensures r == None <==> forall i, j | 0 <= i < j < |fields| :: fields[i].key != fields[j].key
      ensures r.Some? ==> exists j :: 0 <= j < |fields| && fields[j].key == r.value && !Before(fields, j, r.value)
                                      && forall a, b | 0 <= a < b < j :: fields[a].key != fields[b].key
    {
      var seen: set<Text> := {};
      for i := 0 to |fields|
        invariant forall k :: k in seen <==> exists j :: 0 <= j < i && fields[j].key == k
        invariant forall a, b | 0 <= a < b < i :: fields[a].key != fields[b].key
      {
        if fields[i].key in seen { return Some(fields[i].key); }
        seen := seen + {fields[i].key};
      }
      return None;
    }

    /** It panics on a frozen document unless there is nothing to do. */
    method MoveIDToTheFirstIndex()
      requires Valid() && (frozen ==> fields == [] || fields[0].key == ID || Count(fields, ID) == 0)
      modifies this`fields
      ensures Valid()
      ensures if Count(old(fields), ID) == 0 then fields == old(fields)
              else exists i :: 0 <= i < |old(fields)| && old(fields)[i].key == ID && Before(old(fields), i, ID)
                               && fields == [old(fields)[i]] + old(fields)[..i] + old(fields)[i + 1..]
    {
      NowhereIn(fields, ID, Null);
      if ID !in keys { return; }
      var idIdx := 0;
      for i := 0 to |fields|
        invariant Before(fields, i, ID) && idIdx == 0
      {
        if fields[i].key == ID {
          idIdx := i;
          break;
        }
      }
      assert fields[idIdx].key == ID && Before(fields, idIdx, ID);
      if idIdx == 0 {
        assert fields == [fields[0]] + fields[..0] + fields[1..];
        return;
      }
      MovedCounted(keys, fields, idIdx);
      ghost var before := fields;
      fields := [fields[idIdx]] + fields;
      fields := fields[..idIdx + 1] + fields[idIdx + 2..];
      assert fields == [before[idIdx]] + before[..idIdx] + before[idIdx + 1..];
    }

    /** Writes a value at a path into the document. */
    method Overwrite(at: Path, x: Value)
      requires Valid() && at != [] && GetAt(Doc(fields), at).Ok?
      modifies this`fields
      ensures Valid() && Doc(fields) == Replace(old(Doc(fields)), at, x)
    {
      FindCounts(fields, at[0]);
      SetCounted(keys, fields, at[0], Replace(Enter(Doc(fields), at[0]).value, at[1..], x));
      fields := Replace(Doc(fields), at, x).fields;
    }

    /** Set on the document found at a path. */
    method SetIn(at: Path, elem: Text, x: Value)
      requires Valid() && !frozen && Unique(Doc(fields)) && GetAt(Doc(fields), at).Ok?
               && GetAt(Doc(fields), at).value.Doc?
      modifies this`keys, this`fields
      ensures Valid()
      ensures Doc(fields)
              == Replace(old(Doc(fields)), at, Doc(SetField(GetAt(old(Doc(fields)), at).value.fields, elem, x)))
    {
      if at == [] {
        Set(elem, x);
      } else {
        Overwrite(at, Doc(SetField(GetAt(Doc(fields), at).value.fields, elem, x)));
      }
    }

    /** Creates the missing documents on the way to the end of the path. */
    method InsertByPath(path: Path) returns (err: Option<Error>)
      requires Valid() && !frozen && Unique(Doc(fields)) && |path| >= 2
      requires GetAt(Doc(fields), path[..|path| - 1]).Err?
      modifies this`keys, this`fields
      ensures Valid()
      ensures err == None ==> SetAt(old(Doc(fields)), path[..|path| - 1], Doc([])) == Ok(Doc(fields))
      ensures err.Some? ==>
                fields == old(fields) && forall value :: SetAt(old(Doc(fields)), path, value) == Err(err.value)
    {
      ghost var root := Doc(fields);
      var next := Doc(fields);
      hide Counted;
      for i := 0 to |path| - 1
        invariant Valid() && Created(root, Doc(fields), path, i, next)
      {
        var elem := path[i];
        CreatedIsUnique(root, Doc(fields), path, i, next);
        var v := GetByPath(Doc(fields), path[..i + 1]);
        if v.Ok? {
          NextExists(root, Doc(fields), path, i, next);
          next := v.value;
          continue;
        }
        match next {
          case Doc(inner) =>
            InsertStep(root, Doc(fields), path, i, next);
            SetIn(path[..i], elem, Doc([]));
          case Arr(items) =>
            var ind := Atoi(elem);
            if ind == None {
              InsertFails(root, Doc(fields), path, i, next);
              return Some(PathError(CannotCreateField));
            }
            if ind.value < 0 {
              InsertFails(root, Doc(fields), path, i, next);
              return Some(PathError(IndexOutOfBound));
            }
            MissingElement(Doc(fields), path, i, items);
            InsertStep(root, Doc(fields), path, i, next);
            var grown := FillGap(items, ind.value);
            AppendedIsSet(items, elem);
            Overwrite(path[..i], Arr(grown + [Doc([])]));
          case _ =>
            InsertFails(root, Doc(fields), path, i, next);
            return Some(PathError(CannotCreateField));
        }
        next := Doc([]);
      }
      return None;
    }

    /** Sets the value at a path, creating what is missing; on an error the document is as before. */
    method SetByPath(path: Path, value: Value) returns (err: Option<Error>)
      requires Valid() && !frozen && Unique(Doc(fields)) && path != []
      modifies this`keys, this`fields
      ensures Valid() && Outcome(old(Doc(fields)), path, value, Doc(fields), err)
    {
      if |path| == 1 {
        Set(path[0], value);
        return None;
      }
      ghost var root := Doc(fields);
      var found := GetByPath(Doc(fields), path[..|path| - 1]);
      hide Counted, Unique, GetAt, SetAt;
      if found.Err? {
        err := InsertByPath(path);
        if err.Some? { return; }
        CreatedForPath(root, Doc(fields), path, value);
      }
      err := SetInner(path, value);
    }

    /** The last step of SetByPath, once the path leads somewhere. */
    method SetInner(path: Path, value: Value) returns (err: Option<Error>)
      requires Valid() && !frozen && Unique(Doc(fields)) && |path| >= 2 && GetAt(Doc(fields), path[..|path| - 1]).Ok?
      modifies this`keys, this`fields
      ensures Valid() && Outcome(old(Doc(fields)), path, value, Doc(fields), err)
    {
      SetAtTheEnd(Doc(fields), path, value);
      hide Counted, Unique;
      var k := |path| - 1;
      var inner := GetByPath(Doc(fields), path[..k]);
      match inner.value {
        case Doc(_) =>
          SetIn(path[..k], path[k], value);
          return None;
        case Arr(items) =>
          var index := Atoi(path[k]);
          if index == None || index.value < 0 { return Some(Plain); }
          var grown := FillGap(items, index.value + 1);
          Overwrite(path[..k], Arr(grown[index.value := value]));
          return None;
        case _ =>
          return Some(Plain);
      }
    }
  }

  /** What setting a value by a path makes of a document: the new document, or an error and the old one. */
  ghost predicate Outcome(before: Value, path: Path, value: Value, after: Value, err: Option<Error>)
    requires path != []
  {
    match SetAt(before, path, value)
    case Ok(v) => err == None && after == v
    case Err(e) => err == Some(e) && after == before
  }

  /** Appends nulls to an array up to the given length. */
  method FillGap(items: seq<Value>, length: nat) returns (grown: seq<Value>)
    ensures grown == Padded(items, length)
  {
    grown := items;
    for i := |items| to if length < |items| then |items| else length
      invariant grown == Padded(items, i)
    {
      grown := grown + [Null];
    }
  }

  lemma AppendedIsSet(items: seq<Value>, elem: Text)
    requires Atoi(elem).Some? && Atoi(elem).value >= |items|
    ensures SetAt(Arr(items), [elem], Doc([])) == Ok(Arr(Padded(items, Atoi(elem).value) + [Doc([])]))
  {
    var i := Atoi(elem).value;
    assert Padded(items, i + 1)[i := Doc([])] == Padded(items, i) + [Doc([])];
  }

  lemma CreatedForPath(root: Value, now: Value, path: Path, value: Value)
    requires |path| >= 2 && Unique(root)
    requires GetAt(root, path[..|path| - 1]).Err? && SetAt(root, path[..|path| - 1], Doc([])) == Ok(now)
    ensures Unique(now) && GetAt(now, path[..|path| - 1]) == Ok(Doc([]))
            && SetAt(now, path, value) == SetAt(root, path, value)
    ensures SetAt(now, path, value).Ok?
  {
    var k := |path| - 1;
    assert Unique(Doc([]));
    SettingKeepsNamesUnique(root, path[..k], Doc([]));
    SetThenGet(root, path[..k], Doc([]));
    CreateThenSet(root, path, k, value);
    SetAtTheEnd(now, path, value);
  }

  lemma SetAtTheEnd(v: Value, path: Path, value: Value)
    requires path != [] && GetAt(v, path[..|path| - 1]).Ok?
    ensures SetAt(v, path, value)
         == match SetAt(GetAt(v, path[..|path| - 1]).value, [path[|path| - 1]], value)
            case Ok(x) => Ok(Replace(v, path[..|path| - 1], x))
            case Err(e) => Err(e)
  {
    SetSplits(v, path, |path| - 1, value);
    assert path[|path| - 1..] == [path[|path| - 1]];
  }

  // ---- writing below the top level ----

  /** The value with the one at a path exchanged. */
  function Replace(v: Value, path: Path, x: Value): Value
    requires GetAt(v, path).Ok?
    decreases |path|
  {
    if path == [] then x
    else
      var inner := Replace(Enter(v, path[0]).value, path[1..], x);
      match v
      case Doc(fields) => Doc(SetField(fields, path[0], inner))
      case Arr(items) => Arr(items[Atoi(path[0]).value := inner])
  }

  /** Setting by a path is setting by its end in the value its beginning leads to. */
  lemma {:induction false} SetSplits(v: Value, path: Path, k: nat, value: Value)
    requires k < |path| && GetAt(v, path[..k]).Ok?
    ensures SetAt(v, path, value)
         == match SetAt(GetAt(v, path[..k]).value, path[k..], value)
            case Ok(x) => Ok(Replace(v, path[..k], x))
            case Err(e) => Err(e)
    decreases k
  {
    if k > 0 {
      assert path[..k][1..] == path[1..][..k - 1] && path[1..][k - 1..] == path[k..];
      SetSplits(Enter(v, path[0]).value, path[1..], k - 1, value);
    } else {
      assert path[0..] == path;
    }
  }

  /** Creating the missing documents first and setting the value then is setting the value. */
  lemma {:induction false} CreateThenSet(v: Value, path: Path, k: nat, value: Value)
    requires 0 < k < |path| && GetAt(v, path[..k]).Err? && SetAt(v, path[..k], Doc([])).Ok?
    ensures SetAt(SetAt(v, path[..k], Doc([])).value, path, value) == SetAt(v, path, value)
    decreases k
  {
    var elem, rest, front := path[0], path[1..], path[..k];
    assert front[1..] == rest[..k - 1];
    hide SetField, Find, Atoi;
    match v
    case Doc(fields) =>
      if Find(fields, elem).Some? { CreateThenSet(Find(fields, elem).value, rest, k - 1, value); }
      CreateInDocument(fields, path, k, value);
    case Arr(items) =>
      if Atoi(elem).value < |items| { CreateThenSet(items[Atoi(elem).value], rest, k - 1, value); }
      CreateInArray(items, path, k, value);
    case _ =>
  }

  lemma CreateInDocument(fields: seq<Field>, path: Path, k: nat, value: Value)
    requires 0 < k < |path| && GetAt(Doc(fields), path[..k]).Err? && SetAt(Doc(fields), path[..k], Doc([])).Ok?
    requires var rest := path[1..];
             match Find(fields, path[0])
             case None => true
             case Some(x) =>
               k > 1 && SetAt(x, rest[..k - 1], Doc([])).Ok?
               && SetAt(SetAt(x, rest[..k - 1], Doc([])).value, rest, value) == SetAt(x, rest, value)
    ensures SetAt(SetAt(Doc(fields), path[..k], Doc([])).value, path, value) == SetAt(Doc(fields), path, value)
  {
    var elem, rest := path[0], path[1..];
    assert path[..k][1..] == rest[..k - 1];
    NestedThenSet(rest, k - 1, value);
    var made := if Find(fields, elem).Some? then SetAt(Find(fields, elem).value, rest[..k - 1], Doc([])).value
                else Nested(rest[..k - 1], Doc([]));
    SetFieldThenFind(fields, elem, made, elem);
    forall x { SetFieldTwice(fields, elem, made, x); }
    hide SetField, Find;
  }

  lemma CreateInArray(items: seq<Value>, path: Path, k: nat, value: Value)
    requires 0 < k < |path| && GetAt(Arr(items), path[..k]).Err? && SetAt(Arr(items), path[..k], Doc([])).Ok?
    requires var i, rest := Atoi(path[0]).value, path[1..];
             i < |items| ==>
               k > 1 && SetAt(items[i], rest[..k - 1], Doc([])).Ok?
               && SetAt(SetAt(items[i], rest[..k - 1], Doc([])).value, rest, value) == SetAt(items[i], rest, value)
    ensures SetAt(SetAt(Arr(items), path[..k], Doc([])).value, path, value) == SetAt(Arr(items), path, value)
  {
    var i, rest, front := Atoi(path[0]).value, path[1..], path[..k];
    assert front[1..] == rest[..k - 1];
    if i < |items| {
      var made, whole := SetAt(items[i], rest[..k - 1], Doc([])).value, SetAt(items[i], rest, value);
      if whole.Ok? { assert items[i := made][i := whole.value] == items[i := whole.value]; }
    } else {
      NestedThenSet(rest, k - 1, value);
      var made := Nested(rest[..k - 1], Doc([]));
      assert Padded(items, i + 1)[i := made] == Padded(items, i) + [made];
      assert SetAt(Arr(items), front, Doc([])).value == Arr(Padded(items, i) + [made]);
      assert (Padded(items, i) + [made])[i := Nested(rest, value)] == Padded(items, i) + [Nested(rest, value)];
    }
  }

  lemma {:induction false} SetFieldTwice(fields: seq<Field>, key: Text, a: Value, b: Value)
    ensures SetField(SetField(fields, key, a), key, b) == SetField(fields, key, b)
  {
    if fields != [] && fields[0].key != key {
      SetFieldTwice(fields[1..], key, a, b);
      assert SetField(fields, key, a)[1..] == SetField(fields[1..], key, a);
    }
  }

  lemma {:induction false} NestedThenSet(path: Path, k: nat, value: Value)
    requires k < |path|
    ensures SetAt(Nested(path[..k], Doc([])), path, value) == Ok(Nested(path, value))
    decreases k
  {
    var elem, rest := path[0], path[1..];
    if k > 0 {
      assert path[..k][1..] == rest[..k - 1];
      NestedThenSet(rest, k - 1, value);
      var made := Nested(rest[..k - 1], Doc([]));
      assert SetField([Field(elem, made)], elem, Nested(rest, value)) == [Field(elem, Nested(rest, value))];
      assert Find([Field(elem, made)], elem) == Some(made);
    } else {
      assert Nested(path[..k], Doc([])) == Doc([]);
    }
  }

  /** Midway through creating the documents for a path: `root` as it was while the path resolves, and from the
      first missing element on, what setting an empty document there makes of it. */
  ghost predicate Created(root: Value, now: Value, path: Path, i: nat, next: Value) {
    && i < |path| && GetAt(now, path[..i]) == Ok(next)
    && if GetAt(root, path[..i]).Ok? then now == root
       else i > 0 && SetAt(root, path[..i], Doc([])) == Ok(now) && next == Doc([])
  }

  lemma {:induction false} LongerPathsFail(v: Value, path: Path, k: nat, m: nat)
    requires k <= m <= |path| && GetAt(v, path[..k]).Err?
    ensures GetAt(v, path[..m]).Err?
    decreases k
  {
    assert path[..k][1..] == path[1..][..k - 1] && path[..m][1..] == path[1..][..m - 1];
    if Enter(v, path[0]).Ok? { LongerPathsFail(Enter(v, path[0]).value, path[1..], k - 1, m - 1); }
  }

  lemma OneFurther(v: Value, path: Path, i: nat)
    requires i < |path| && GetAt(v, path[..i]).Ok?
    ensures GetAt(v, path[..i + 1]) == Enter(GetAt(v, path[..i]).value, path[i])
  {
    assert path[..i + 1][..i] == path[..i];
    GetSplits(v, path[..i + 1], i);
    assert |path[..i + 1][i..][1..]| == 0;
  }

  lemma NextExists(root: Value, now: Value, path: Path, i: nat, next: Value)
    requires Created(root, now, path, i, next) && i + 1 < |path| && GetAt(now, path[..i + 1]).Ok?
    ensures Created(root, now, path, i + 1, GetAt(now, path[..i + 1]).value)
  {
    OneFurther(now, path, i);
  }

  lemma MissingElement(now: Value, path: Path, i: nat, items: seq<Value>)
    requires now.Doc? && i < |path| && GetAt(now, path[..i]) == Ok(Arr(items)) && GetAt(now, path[..i + 1]).Err?
    ensures i > 0 && (Atoi(path[i]).Some? && Atoi(path[i]).value >= 0 ==> Atoi(path[i]).value >= |items|)
  {
    OneFurther(now, path, i);
  }

  // ---- field names stay unique ----

  lemma {:induction false} FoundIsMember(fields: seq<Field>, key: Text)
    requires Find(fields, key).Some?
    ensures exists f :: f in fields && f.value == Find(fields, key).value
  {
    if fields[0].key != key {
      FoundIsMember(fields[1..], key);
      var f :| f in fields[1..] && f.value == Find(fields, key).value;
      assert f in fields;
    } else {
      assert fields[0] in fields;
    }
  }

  lemma {:induction false} SetFieldMembers(fields: seq<Field>, key: Text, value: Value, f: Field)
    requires f in SetField(fields, key, value)
    ensures f in fields || f.value == value
  {
    if fields != [] && fields[0].key != key && f != fields[0] {
      SetFieldMembers(fields[1..], key, value, f);
    }
  }

  lemma SetFieldStaysUnique(fields: seq<Field>, key: Text, value: Value)
    requires Unique(Doc(fields)) && Unique(value)
    ensures Unique(Doc(SetField(fields, key, value)))
  {
    forall k: Text ensures Count(SetField(fields, key, value), k) <= 1 {
      SetFieldCounts(fields, key, value, k);
    }
    forall f | f in SetField(fields, key, value) ensures Unique(f.value) {
      SetFieldMembers(fields, key, value, f);
    }
  }

  lemma {:induction false} NestedIsUnique(path: Path, value: Value)
    requires Unique(value)
    ensures Unique(Nested(path, value))
  {
    if path != [] {
      NestedIsUnique(path[1..], value);
      var fields := [Field(path[0], Nested(path[1..], value))];
      assert fields[1..] == [];
    }
  }

  /** Setting a value with unique names keeps the names unique at every depth. */
  lemma {:induction false} SettingKeepsNamesUnique(v: Value, path: Path, value: Value)
    requires path != [] && Unique(v) && Unique(value) && SetAt(v, path, value).Ok?
    ensures Unique(SetAt(v, path, value).value)
    decreases |path|
  {
    var elem, rest := path[0], path[1..];
    NestedIsUnique(rest, value);
    match v
    case Doc(fields) =>
      if rest != [] && Find(fields, elem).Some? {
        FoundIsMember(fields, elem);
        SettingKeepsNamesUnique(Find(fields, elem).value, rest, value);
        SetFieldStaysUnique(fields, elem, SetAt(Find(fields, elem).value, rest, value).value);
      } else {
        SetFieldStaysUnique(fields, elem, Nested(rest, value));
      }
    case Arr(items) =>
      var i := Atoi(elem).value;
      if rest != [] && i < |items| {
        SettingKeepsNamesUnique(items[i], rest, value);
      }
    case _ =>
  }

  lemma CreatedIsUnique(root: Value, now: Value, path: Path, i: nat, next: Value)
    requires Unique(root) && Created(root, now, path, i, next)
    ensures Unique(now)
  {
    if now != root {
      assert Unique(Doc([]));
      SettingKeepsNamesUnique(root, path[..i], Doc([]));
    }
  }

  /** A missing element is created the way setting an empty document would. */
  lemma InsertStep(root: Value, now: Value, path: Path, i: nat, next: Value)
    requires Created(root, now, path, i, next) && i + 1 < |path|
    requires GetAt(now, path[..i + 1]).Err? && SetAt(next, [path[i]], Doc([])).Ok?
    ensures Created(root, Replace(now, path[..i], SetAt(next, [path[i]], Doc([])).value), path, i + 1, Doc([]))
  {
    var front := path[..i + 1];
    assert front[..i] == path[..i] && front[i..] == [path[i]];
    SetSplits(now, front, i, Doc([]));
    if now != root {
      LongerPathsFail(root, path, i, i + 1);
      CreateThenSet(root, front, i, Doc([]));
    }
    SetThenGet(root, front, Doc([]));
  }

  /** Where an element cannot be created, nothing was created before, and setting fails alike. */
  lemma InsertFails(root: Value, now: Value, path: Path, i: nat, next: Value)
    requires Created(root, now, path, i, next) && i + 1 < |path|
    requires !CanHold(next, path[i])
    ensures now == root
    ensures forall value :: SetAt(root, path, value)
                         == Err(PathError(if next.Arr? && Atoi(path[i]).Some? then IndexOutOfBound
                                          else CannotCreateField))
  {
    forall value ensures SetAt(root, path, value)
                      == Err(PathError(if next.Arr? && Atoi(path[i]).Some? then IndexOutOfBound else CannotCreateField))
    {
      SetSplits(root, path, i, value);
    }
  }

  lemma MovedCounted(keys: map<Text, nat>, fields: seq<Field>, i: nat)
    requires i < |fields| && Counted(keys, fields)
    ensures Counted(keys, [fields[i]] + fields[..i] + fields[i + 1..])
  {
    var rest := fields[..i] + fields[i + 1..];
    forall k: Text ensures Count([fields[i]] + fields[..i] + fields[i + 1..], k) == Count(fields, k) {
      RemovedCount(fields, i, k);
      assert [fields[i]] + fields[..i] + fields[i + 1..] == [fields[i]] + rest;
      assert ([fields[i]] + rest)[1..] == rest;
    }
  }
}
