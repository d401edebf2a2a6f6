/**
 The BSON values of internal/compat/ferretdb/internal/types: a recursive sum of
 scalars, documents and arrays. Go strings are byte sequences; a double is NaN,
 an infinity or a real number, so only rounding is abstracted away.
 */
module Values {
  import opened Optional

  type Byte = x: int | 0 <= x < 0x100
  type Text = seq<Byte>
  type Id12 = s: Text | |s| == 12 witness [0, 0, 0, 0, 0, 0, 0, 0, 0, 0, 0, 0]
  type I32 = x: int | -0x8000_0000 <= x < 0x8000_0000
  type I64 = x: int | -0x8000_0000_0000_0000 <= x < 0x8000_0000_0000_0000
  type U64 = x: int | 0 <= x < 0x1_0000_0000_0000_0000

  datatype Double = NaN | NegInfinity | Finite(r: real) | PosInfinity

  datatype Field = Field(key: Text, value: Value)

  datatype Value =
    | Null
    | Double(d: Double)
    | Int32(i32: I32)
    | Int64(i64: I64)
    | Str(text: Text)
    | Doc(fields: seq<Field>)
    | Arr(items: seq<Value>)
    | Binary(subtype: Byte, bytes: Text)
    | ObjectId(id: Id12)
    | Bool(b: bool)
    | Date(millis: I64)
    | Timestamp(ts: U64)
      // `parses` is the verdict of Go's regexp parser on the assembled expression
    | Regex(pattern: Text, options: Text, parses: bool)

  predicate IsScalar(v: Value) {
    !v.Doc? && !v.Arr?
  }

  // int32, int64 and every double except NaN
  predicate IsNumber(v: Value) {
    v.Int32? || v.Int64? || (v.Double? && v.d != NaN)
  }

  const LETTER_I: Byte := 0x69
  const LETTER_M: Byte := 0x6D
  const LETTER_S: Byte := 0x73
  const LETTER_X: Byte := 0x78

  /** The i, m and s flags of a regex in order; None when the unsupported x occurs. */
  function RegexFlags(options: Text): Option<Text> {
    if options == [] then Some([])
    else if options[0] == LETTER_X then None
    else
      match RegexFlags(options[1..])
      case None => None
      case Some(rest) =>
        if options[0] in {LETTER_I, LETTER_M, LETTER_S} then Some([options[0]] + rest) else Some(rest)
  }

  /** The source text of the compiled expression, or None when compilation fails. */
  function CompileRegex(v: Value): Option<Text>
    requires v.Regex?
  {
    match RegexFlags(v.options)
    case None => None
    case Some(flags) =>
      if !v.parses then None
      else if flags == [] then Some(v.pattern)
      else Some([0x28, 0x3F] + flags + [0x29] + v.pattern) // "(?" flags ")" pattern
  }

  /** Every regex inside `v`, at any depth, compiles. */
  predicate Compilable(v: Value) {
    match v
    case Regex(_, _, _) => CompileRegex(v).Some?
    case Doc(fields) => forall f | f in fields :: Compilable(f.value)
    case Arr(items) => forall e | e in items :: Compilable(e)
    case _ => true
  }
}
