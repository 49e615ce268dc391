/** Sanitizing of identifiers, keys and values before they are written (escaper.go). */
module Escaper {
  import opened Events

  /** The validator's result names; they pass through the field-name escaper unchanged. */
  const VALIDATION_RESULT_TYPES: set<string> := {
    "accepted", "third.party", "validation.unmatched_rule", "validation.incorrect_rule",
    "validation.undefined_rule", "validation.unreachable_metadata", "validation.dictionary_not_found",
    "validation.general_dictionary_error", "validation.unreachable.whitelist",
    "validation.performance_issue", "validation.required_field_missed", "validation.default_value_applied" }

  const IDENTIFIER_SYMBOLS := ":;, "
  const FIELD_NAME_SYMBOLS := ".:;, "

  predicate IsWhiteSpaceToReplace(c: char) {
    c == '\n' || c == '\r' || c == '\t'
  }

  predicate IsASCIIControl(c: char) {
    c as int < 32 || c as int == 127
  }

  predicate IsSymbolToReplace(c: char, toReplace: string) {
    c in toReplace || IsASCIIControl(c)
  }

  predicate IsProhibitedSymbol(c: char) {
    c == '\'' || c == '"'
  }

  /** What one character becomes: itself, a stand-in, or nothing. */
  function EscapeChar(c: char, toReplace: string, allowSpaces: bool): string {
    if c as int > 127 then "?"
    else if IsWhiteSpaceToReplace(c) then (if allowSpaces then " " else "_")
    else if IsSymbolToReplace(c, toReplace) then "_"
    else if IsProhibitedSymbol(c) then ""
    else [c]
  }

  function EscapeAll(s: string, toReplace: string, allowSpaces: bool): string {
    if s == "" then "" else EscapeChar(s[0], toReplace, allowSpaces) + EscapeAll(s[1..], toReplace, allowSpaces)
  }

  function Escape(s: string): string {
    EscapeAll(s, IDENTIFIER_SYMBOLS, false)
  }

  function EscapeIDOrValue(s: string): string {
    EscapeAll(s, "", true)
  }

  function EscapeFieldName(s: string): string {
    if s in VALIDATION_RESULT_TYPES then s else EscapeAll(s, FIELD_NAME_SYMBOLS, false)
  }

  // ---------- Strings ----------

  predicate NeedsEscape(c: char, toReplace: string) {
    c as int > 127 || IsWhiteSpaceToReplace(c) || IsSymbolToReplace(c, toReplace) || IsProhibitedSymbol(c)
  }

  method ContainsSystemSymbols(s: string, toReplace: string) returns (found: bool)
    ensures found <==> exists i :: 0 <= i < |s| && NeedsEscape(s[i], toReplace)
  {
    for i := 0 to |s|
      invariant forall j | 0 <= j < i :: !NeedsEscape(s[j], toReplace)
    {
      var c := s[i];
      if c as int > 127 {
        return true;
      }
      if IsWhiteSpaceToReplace(c) || IsSymbolToReplace(c, toReplace) || IsProhibitedSymbol(c) {
        return true;
      }
    }
    return false;
  }

  lemma {:induction false} CleanIsUnchanged(s: string, toReplace: string, allowSpaces: bool)
    requires forall i | 0 <= i < |s| :: !NeedsEscape(s[i], toReplace)
    ensures EscapeAll(s, toReplace, allowSpaces) == s
  {
    if s != "" {
      CleanIsUnchanged(s[1..], toReplace, allowSpaces);
    }
  }

  /** The shortcut for strings without system symbols returns what the full loop would have. */
  method EscapeInternal(s: string, toReplace: string, allowSpaces: bool) returns (r: string)
    ensures r == EscapeAll(s, toReplace, allowSpaces)
  {
    var dirty := ContainsSystemSymbols(s, toReplace);
    if !dirty {
      CleanIsUnchanged(s, toReplace, allowSpaces);
      return s;
    }
    r := "";
    for i := 0 to |s|
      invariant r == EscapeAll(s[..i], toReplace, allowSpaces)
    {
      var c := s[i];
      ghost var before := r;
      if c as int > 127 {
        r := r + "?";
      } else if IsWhiteSpaceToReplace(c) {
        r := r + (if allowSpaces then " " else "_");
      } else if IsSymbolToReplace(c, toReplace) {
        r := r + "_";
      } else if IsProhibitedSymbol(c) {
        // dropped
      } else {
        r := r + [c];
      }
      assert s[..i + 1] == s[..i] + [c];
      EscapeConcat(s[..i], [c], toReplace, allowSpaces);
      assert EscapeAll([c], toReplace, allowSpaces) == EscapeChar(c, toReplace, allowSpaces) + "";
      assert r == before + EscapeChar(c, toReplace, allowSpaces);
    }
    assert s[..|s|] == s;
  }

  lemma {:induction false} EscapeConcat(a: string, b: string, toReplace: string, allowSpaces: bool)
    ensures EscapeAll(a + b, toReplace, allowSpaces) ==
            EscapeAll(a, toReplace, allowSpaces) + EscapeAll(b, toReplace, allowSpaces)
  {
    hide EscapeChar;
    if a == "" {
      assert a + b == b;
    } else {
      EscapeConcat(a[1..], b, toReplace, allowSpaces);
      assert (a + b)[1..] == a[1..] + b;
    }
  }

  lemma ShortIsNoResultType(s: string)
    requires |s| <= 1
    ensures s !in VALIDATION_RESULT_TYPES
  {
  }

  /** What the identifier, value and field-name escapers make of each character; of longer text they make the same
      character by character, except that the field-name escaper leaves sentinels alone. */
  lemma CharactersEscaped(c: char)
    ensures c as int > 127 ==> Escape([c]) == EscapeIDOrValue([c]) == EscapeFieldName([c]) == "?"
    ensures c == '\n' || c == '\r' || c == '\t' ==>
              Escape([c]) == EscapeFieldName([c]) == "_" && EscapeIDOrValue([c]) == " "
    ensures (c as int < 32 && c != '\n' && c != '\r' && c != '\t') || c as int == 127 ==>
              Escape([c]) == EscapeIDOrValue([c]) == EscapeFieldName([c]) == "_"
    ensures c == '\'' || c == '"' ==> Escape([c]) == EscapeIDOrValue([c]) == EscapeFieldName([c]) == ""
    ensures c == ':' || c == ';' || c == ',' || c == ' ' ==>
              Escape([c]) == EscapeFieldName([c]) == "_" && EscapeIDOrValue([c]) == [c]
    ensures c == '.' ==> EscapeFieldName([c]) == "_" && Escape([c]) == EscapeIDOrValue([c]) == [c]
    ensures 33 <= c as int <= 126 && c != '\'' && c != '"' && c != ':' && c != ';' && c != ',' && c != '.' ==>
              Escape([c]) == EscapeIDOrValue([c]) == EscapeFieldName([c]) == [c]
  {
    ShortIsNoResultType([c]);
    OneCharacter(c, IDENTIFIER_SYMBOLS, false);
    OneCharacter(c, "", true);
    OneCharacter(c, FIELD_NAME_SYMBOLS, false);
    hide VALIDATION_RESULT_TYPES, EscapeAll;
  }

  lemma OneCharacter(c: char, toReplace: string, allowSpaces: bool)
    ensures EscapeAll([c], toReplace, allowSpaces) == EscapeChar(c, toReplace, allowSpaces)
  {
    hide EscapeChar;
    assert [c][1..] == "";
  }

  /** A name of lower-case letters is its own field name. */
  lemma LowerCaseNameIsKept(s: string)
    requires forall i | 0 <= i < |s| :: 'a' <= s[i] <= 'z'
    ensures EscapeFieldName(s) == s
  {
    hide VALIDATION_RESULT_TYPES, EscapeAll, NeedsEscape, FIELD_NAME_SYMBOLS;
    forall i | 0 <= i < |s| ensures !NeedsEscape(s[i], FIELD_NAME_SYMBOLS) {
      LetterIsKept(s[i]);
    }
    CleanIsUnchanged(s, FIELD_NAME_SYMBOLS, false);
  }

  lemma LetterIsKept(c: char)
    requires 'a' <= c <= 'z'
    ensures !NeedsEscape(c, FIELD_NAME_SYMBOLS)
  {
  }

  /** The stand-ins must not be replaced themselves; the program's three escapers keep to this. */
  predicate StandInsAreKept(toReplace: string, allowSpaces: bool) {
    '?' !in toReplace && '_' !in toReplace && (allowSpaces ==> ' ' !in toReplace)
  }

  lemma {:induction false} EscapedIsClean(s: string, toReplace: string, allowSpaces: bool)
    requires StandInsAreKept(toReplace, allowSpaces)
    ensures forall c | c in EscapeAll(s, toReplace, allowSpaces) :: !NeedsEscape(c, toReplace)
  {
    if s != "" {
      EscapedIsClean(s[1..], toReplace, allowSpaces);
      assert forall c | c in EscapeChar(s[0], toReplace, allowSpaces) :: !NeedsEscape(c, toReplace);
    }
  }

  /** Escaped text is printable ASCII without quotes or the replaced symbols, and escaping it again changes nothing. */
  lemma EscapeIsIdempotent(s: string, toReplace: string, allowSpaces: bool)
    requires StandInsAreKept(toReplace, allowSpaces)
    ensures var t := EscapeAll(s, toReplace, allowSpaces);
            && EscapeAll(t, toReplace, allowSpaces) == t
            && forall c | c in t :: 32 <= c as int <= 126 && c != '\'' && c != '"' && c !in toReplace
  {
    EscapedIsClean(s, toReplace, allowSpaces);
    CleanIsUnchanged(EscapeAll(s, toReplace, allowSpaces), toReplace, allowSpaces);
  }

  lemma ThreeEscapersAreIdempotent(s: string)
    ensures Escape(Escape(s)) == Escape(s)
    ensures EscapeIDOrValue(EscapeIDOrValue(s)) == EscapeIDOrValue(s)
    ensures EscapeFieldName(EscapeFieldName(s)) == EscapeFieldName(s)
  {
    EscapeIsIdempotent(s, IDENTIFIER_SYMBOLS, false);
    EscapeIsIdempotent(s, "", true);
    EscapeIsIdempotent(s, FIELD_NAME_SYMBOLS, false);
  }

  /** Letters, dots and underscores only. */
  predicate IsPlainName(s: string) {
    forall i | 0 <= i < |s| :: 'a' <= s[i] <= 'z' || s[i] == '.' || s[i] == '_'
  }

  lemma PlainNameIsKept(s: string)
    requires IsPlainName(s)
    ensures EscapeIDOrValue(s) == s
  {
    CleanIsUnchanged(s, "", true);
  }

  lemma ResultTypesArePlain(s: string)
    requires s in VALIDATION_RESULT_TYPES
    ensures IsPlainName(s)
  {
    hide IsPlainName;
    PlainNames1();
    PlainNames2();
    PlainNames3();
    PlainNames4();
  }

  lemma PlainNames1()
    ensures IsPlainName("accepted") && IsPlainName("third.party") && IsPlainName("validation.unmatched_rule")
  {
  }

  lemma PlainNames2()
    ensures IsPlainName("validation.incorrect_rule") && IsPlainName("validation.undefined_rule")
    ensures IsPlainName("validation.unreachable_metadata")
  {
  }

  lemma PlainNames3()
    ensures IsPlainName("validation.dictionary_not_found") && IsPlainName("validation.general_dictionary_error")
    ensures IsPlainName("validation.unreachable.whitelist")
  {
  }

  lemma PlainNames4()
    ensures IsPlainName("validation.performance_issue") && IsPlainName("validation.required_field_missed")
    ensures IsPlainName("validation.default_value_applied")
  {
  }

  lemma ResultTypesAreFixedPoints(s: string)
    requires s in VALIDATION_RESULT_TYPES
    ensures EscapeIDOrValue(s) == s && EscapeFieldName(s) == s
  {
    ResultTypesArePlain(s);
    hide VALIDATION_RESULT_TYPES;
    PlainNameIsKept(s);
  }

  // ---------- Data ----------

  /** w is v with every key escaped and every string escaped. When several keys of a map escape to
      the same key, w holds the escaped value of one of them: which one depends on the map's iteration order. */
  ghost predicate Escaped(v: Value, w: Value)
    decreases v, 1
  {
    match v
    case Str(s) => w == Str(EscapeIDOrValue(s))
    case List(items) =>
      w.List? && |w.items| == |items| && forall i | 0 <= i < |items| :: Escaped(items[i], w.items[i])
    case Obj(fields) =>
      && w.Obj?
      && (forall k | k in fields :: EscapeFieldName(k) in w.fields)
      && (forall k' | k' in w.fields :: ComesFrom(v, k', w.fields[k']))
    case _ => w == v
  }

  /** Some entry of v escapes to the entry (k', w). */
  ghost predicate ComesFrom(v: Value, k': string, w: Value)
    requires v.Obj?
    decreases v, 0
  {
    exists k :: k in v.fields && EscapeFieldName(k) == k' && Escaped(v.fields[k], w)
  }

  method EscapeEventData(data: map<string, Value>) returns (out: map<string, Value>)
    ensures Escaped(Obj(data), Obj(out))
    decreases Obj(data), 1
  {
    out := map[];
    var todo := data.Keys;
    while todo != {}
      invariant todo <= data.Keys
      invariant forall k | k in data.Keys - todo :: EscapeFieldName(k) in out
      invariant forall k' | k' in out :: ComesFrom(Obj(data), k', out[k'])
    {
      var k :| k in todo;
      var w := EscapeEventDataValue(data[k]);
      out := out[EscapeFieldName(k) := w];
      todo := todo - {k};
    }
  }

  method EscapeEventDataValue(v: Value) returns (w: Value)
    ensures Escaped(v, w)
    decreases v, 2
  {
    match v
    case Str(s) =>
      var t := EscapeInternal(s, "", true);
      w := Str(t);
    case List(items) =>
      var out: seq<Value> := [];
      for i := 0 to |items|
        invariant |out| == i && forall j | 0 <= j < i :: Escaped(items[j], out[j])
      {
        if items[i] == Null {
          out := out + [Null];
        } else {
          var item := EscapeEventDataValue(items[i]);
          out := out + [item];
        }
      }
      w := List(out);
    case Obj(fields) =>
      var out := EscapeEventData(fields);
      w := Obj(out);
    case _ => w := v;
  }

  /** No two keys of any map inside v escape to the same key. */
  ghost predicate NoCollisions(v: Value) {
    match v
    case List(items) => forall i | 0 <= i < |items| :: NoCollisions(items[i])
    case Obj(fields) =>
      && (forall j, k | j in fields && k in fields && j != k :: EscapeFieldName(j) != EscapeFieldName(k))
      && forall k | k in fields :: NoCollisions(fields[k])
    case _ => true
  }

  /** Without collisions the escaped value does not depend on the iteration order. */
  lemma {:induction false} EscapedIsUnique(v: Value, w: Value, x: Value)
    requires NoCollisions(v) && Escaped(v, w) && Escaped(v, x)
    ensures w == x
    decreases v
  {
    hide EscapeFieldName, EscapeIDOrValue;
    match v
    case List(items) =>
      forall i | 0 <= i < |items| ensures w.items[i] == x.items[i] {
        EscapedIsUnique(items[i], w.items[i], x.items[i]);
      }
    case Obj(fields) =>
      assert w.fields.Keys == x.fields.Keys;
      forall k' | k' in w.fields ensures w.fields[k'] == x.fields[k'] {
        var k :| k in fields && EscapeFieldName(k) == k' && Escaped(fields[k], w.fields[k']);
        EscapedIsUnique(fields[k], w.fields[k'], x.fields[k']);
      }
      assert w.fields == x.fields;
    case _ =>
  }

  /** Every key that the escaper writes is one it would leave alone. */
  lemma EscapedKeysAreFixed(v: Value, w: Value, k': string)
    requires Escaped(v, w) && v.Obj? && k' in w.fields
    ensures EscapeFieldName(k') == k'
  {
    hide EscapeFieldName;
    var k :| k in v.fields && EscapeFieldName(k) == k' && Escaped(v.fields[k], w.fields[k']);
    ThreeEscapersAreIdempotent(k);
  }

  /** When w's keys are fixed points, escaping w keeps each entry under its key. */
  lemma EscapedInPlace(w: Value, x: Value)
    requires Escaped(w, x) && w.Obj?
    requires forall k | k in w.fields :: EscapeFieldName(k) == k
    ensures x.fields.Keys == w.fields.Keys
    ensures forall k | k in w.fields :: Escaped(w.fields[k], x.fields[k])
  {
    hide EscapeFieldName;
    forall k | k in x.fields ensures k in w.fields && Escaped(w.fields[k], x.fields[k]) {
      assert ComesFrom(w, k, x.fields[k]);
    }
  }

  /** Escaping what is already escaped changes nothing, whatever the iteration order. */
  lemma {:induction false} EscapedIsIdempotent(v: Value, w: Value, x: Value)
    requires Escaped(v, w) && Escaped(w, x)
    ensures x == w
    decreases v
  {
    hide EscapeFieldName, EscapeIDOrValue;
    match v
    case Str(s) => ThreeEscapersAreIdempotent(s);
    case List(items) =>
      forall i | 0 <= i < |items| ensures x.items[i] == w.items[i] {
        EscapedIsIdempotent(items[i], w.items[i], x.items[i]);
      }
    case Obj(fields) =>
      forall k' | k' in w.fields ensures EscapeFieldName(k') == k' {
        EscapedKeysAreFixed(v, w, k');
      }
      EscapedInPlace(w, x);
      forall k' | k' in w.fields ensures x.fields[k'] == w.fields[k'] {
        assert ComesFrom(v, k', w.fields[k']);
        var k :| k in fields && EscapeFieldName(k) == k' && Escaped(fields[k], w.fields[k']);
        EscapedIsIdempotent(fields[k], w.fields[k'], x.fields[k']);
      }
      assert x.fields == w.fields;
    case _ =>
  }
}
