/**
 The escaping of internal/compat/ferretdb/internal/backends/hana/sjson_wrapper.go: a dollar
 sign before a lower-case letter is not accepted by the database, so it is stored behind an
 underscore. Both directions are leftmost, non-overlapping pattern replacements.
 */
module HanaEscape {

  predicate Letter(c: char) {
    'a' <= c <= 'z'
  }

  /** A dollar sign and a letter stand at position i. */
  predicate Symbol(s: string, i: nat) {
    i + 1 < |s| && s[i] == '$' && Letter(s[i + 1])
  }

  /** strToHanaJSON: every match of \$([a-z]) becomes _$ and the letter. */
  function ToHana(s: string): string {
    if s == "" then ""
    else if Symbol(s, 0) then ['_', '$', s[1]] + ToHana(s[2..])
    else [s[0]] + ToHana(s[1..])
  }

  /** hanaJSONToStr: every match of _\$([a-z]) becomes $ and the letter. */
  function FromHana(s: string): string {
    if s == "" then ""
    else if s[0] == '_' && Symbol(s, 1) then ['$', s[2]] + FromHana(s[3..])
    else [s[0]] + FromHana(s[1..])
  }

  /** Every symbol is preceded by an underscore. */
  ghost predicate Escaped(s: string) {
    forall i: nat | Symbol(s, i) :: i > 0 && s[i - 1] == '_'
  }

  lemma {:induction false} ToHanaStart(s: string)
    ensures !Symbol(ToHana(s), 0)
    ensures s != "" ==> ToHana(s) != "" && (ToHana(s)[0] == s[0] || (s[0] == '$' && ToHana(s)[0] == '_'))
  {
    if s != "" && !Symbol(s, 0) {
      ToHanaStart(s[1..]);
    }
  }

  /** What was escaped is read back as it was, also when it held underscores and dollar signs before. */
  lemma {:induction false} EscapingRoundTrips(s: string)
    ensures FromHana(ToHana(s)) == s
  {
    if s == "" {
    } else if Symbol(s, 0) {
      EscapingRoundTrips(s[2..]);
      assert ToHana(s)[3..] == ToHana(s[2..]);
    } else {
      EscapingRoundTrips(s[1..]);
      ToHanaStart(s[1..]);
      var t := ToHana(s);
      assert t[1..] == ToHana(s[1..]);
      assert Symbol(t, 1) == Symbol(t[1..], 0);
    }
  }

  /** An escaped text holds no bare symbol. */
  lemma {:induction false} EscapingEscapes(s: string)
    ensures Escaped(ToHana(s))
  {
    if s != "" {
      var skip := if Symbol(s, 0) then 3 else 1;
      var rest := ToHana(s[if Symbol(s, 0) then 2 else 1..]);
      EscapingEscapes(s[if Symbol(s, 0) then 2 else 1..]);
      ToHanaStart(s);
      var t := ToHana(s);
      assert t[skip..] == rest;
      forall i: nat | Symbol(t, i) ensures i > 0 && t[i - 1] == '_' {
        if i >= skip { assert Symbol(rest, i - skip); }
      }
    }
  }

  lemma FromHanaStart(t: string)
    ensures t != "" ==> FromHana(t) != "" && (FromHana(t)[0] == t[0] || (t[0] == '_' && FromHana(t)[0] == '$'))
  {}

  lemma {:induction false} EscapedIsRestored(t: string)
    requires Escaped(t)
    ensures ToHana(FromHana(t)) == t
  {
    if t == "" {
    } else if t[0] == '_' && Symbol(t, 1) {
      forall i: nat | Symbol(t[3..], i) ensures i > 0 && t[3..][i - 1] == '_' { assert Symbol(t, i + 3); }
      EscapedIsRestored(t[3..]);
      assert FromHana(t)[2..] == FromHana(t[3..]);
    } else {
      forall i: nat | Symbol(t[1..], i) ensures i > 0 && t[1..][i - 1] == '_' { assert Symbol(t, i + 1); }
      EscapedIsRestored(t[1..]);
      FromHanaStart(t[1..]);
      assert FromHana(t)[1..] == FromHana(t[1..]);
      assert !Symbol(t, 0);
    }
  }

  /** A stored text survives reading and writing back exactly when it holds no bare symbol. */
  lemma StoredTextSurvivesExactlyWhenEscaped(t: string)
    ensures ToHana(FromHana(t)) == t <==> Escaped(t)
  {
    EscapingEscapes(FromHana(t));
    if Escaped(t) { EscapedIsRestored(t); }
  }

  /** The letters are the small ones of the alphabet. */
  lemma LettersAre(c: char)
    ensures Letter(c) <==> c in "abcdefghijklmnopqrstuvwxyz"
  {
    var letters := "abcdefghijklmnopqrstuvwxyz";
    assert forall i | 0 <= i < 26 :: letters[i] as int == 'a' as int + i;
    if Letter(c) { assert letters[c as int - 'a' as int] == c; }
  }

  /** How many symbols a text holds. */
  function Symbols(s: string): nat {
    if s == "" then 0 else (if Symbol(s, 0) then 1 else 0) + Symbols(s[1..])
  }

  /** Escaping adds one underscore for each symbol, and nothing else. */
  lemma {:induction false} EscapingAddsUnderscores(s: string)
    ensures |ToHana(s)| == |s| + Symbols(s)
  {
    if s == "" {
    } else if Symbol(s, 0) {
      EscapingAddsUnderscores(s[2..]);
      assert !Symbol(s[1..], 0) && s[1..][1..] == s[2..];
    } else {
      EscapingAddsUnderscores(s[1..]);
    }
  }
}
