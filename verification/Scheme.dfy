/** The validation scheme and the printers of its rule expressions (scheme.go, events_scheme.go). */
module Scheme {
  import opened Basics
  import opened GoStrings
  import opened GoNumbers
  import opened Versions

  const COUNTER := "counter"
  const STATE := "state"

  datatype IntRange = IntRange(from: Int64, to: Int64)

  datatype SchemeRules = SchemeRules(
    eventID: seq<string>,
    eventData: map<string, seq<string>>,
    enums: map<string, seq<string>>,
    regexps: map<string, string>,
    ranges: map<string, IntRange>)

  datatype AnonymizedField = AnonymizedField(event: string, fields: seq<string>)

  datatype GroupSchema = GroupSchema(
    id: string,
    groupType: string,
    builds: seq<SchemeRange>,
    versions: seq<SchemeRange>,
    rules: Option<SchemeRules>,
    anonymizedFields: seq<AnonymizedField>)

  datatype Scheme = Scheme(version: string, rules: Option<SchemeRules>, groups: seq<GroupSchema>)

  function EnumExpr(values: seq<string>): string {
    "enum:" + Join(values, '|')
  }

  function EnumRefExpr(ref: string): string {
    "enum#" + ref
  }

  function RegexpExpr(pattern: string): string {
    "regexp:" + pattern
  }

  function RegexpRefExpr(ref: string): string {
    "regexp#" + ref
  }

  function RangeExpr(from: Int64, to: Int64): string {
    "range:" + Itoa(from) + ".." + Itoa(to)
  }

  function RangeRefExpr(ref: string): string {
    "range#" + ref
  }

  function WrapBrace(rule: string): string {
    if "{" <= rule then rule else "{" + rule + "}"
  }

  /** Every rule in braces, in order. */
  function Wrapped(rules: seq<string>): seq<string> {
    seq(|rules|, i requires 0 <= i < |rules| => WrapBrace(rules[i]))
  }

  lemma WrappedConcat(a: seq<string>, b: seq<string>)
    ensures Wrapped(a + b) == Wrapped(a) + Wrapped(b)
  {
    hide WrapBrace;
  }

  lemma WrappedContains(rules: seq<string>, x: string)
    ensures x in Wrapped(rules) <==> exists i :: 0 <= i < |rules| && WrapBrace(rules[i]) == x
  {
    hide WrapBrace;
    if i :| 0 <= i < |rules| && WrapBrace(rules[i]) == x {
      assert Wrapped(rules)[i] == x;
    }
  }

  method WrapBraces(rules: seq<string>) returns (out: seq<string>)
    ensures out == Wrapped(rules)
  {
    var a := new string[|rules|](_ => "");
    for i := 0 to |rules|
      invariant forall j | 0 <= j < i :: a[j] == WrapBrace(rules[j])
    {
      var r := rules[i];
      if !("{" <= r) {
        a[i] := "{" + r + "}";
      } else {
        a[i] := r;
      }
    }
    out := a[..];
  }
}
