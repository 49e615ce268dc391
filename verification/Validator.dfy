/** The client-side validator: compiling a scheme, filtering and rewriting events (validator.go). */
module Validator {
  import opened Basics
  import opened GoStrings
  import opened GoNumbers
  import opened Events
  import opened Escaper
  import opened Versions
  import opened Scheme
  import opened Rules

  const FUS_SYSTEM_EVENTS: set<string> := {
    "registered", "invoked", "invocation.failed", "validation.too_many_events", "validation.too_many_events.alert" }

  /** Names that pass validation as they are. */
  predicate Reserved(s: string) {
    s in FUS_SYSTEM_EVENTS || s in VALIDATION_RESULT_TYPES
  }

  lemma SystemEventsArePlain(s: string)
    requires s in FUS_SYSTEM_EVENTS
    ensures IsPlainName(s)
  {
    hide IsPlainName;
    PlainSystemEvents1();
    PlainSystemEvents2();
  }

  lemma PlainSystemEvents1()
    ensures IsPlainName("registered") && IsPlainName("invoked") && IsPlainName("invocation.failed")
  {
  }

  lemma PlainSystemEvents2()
    ensures IsPlainName("validation.too_many_events") && IsPlainName("validation.too_many_events.alert")
  {
  }

  lemma ReservedIsPlain(s: string)
    requires Reserved(s)
    ensures IsPlainName(s) && EscapeIDOrValue(s) == s
  {
    if s in FUS_SYSTEM_EVENTS {
      SystemEventsArePlain(s);
    } else {
      ResultTypesArePlain(s);
    }
    hide Reserved;
    PlainNameIsKept(s);
  }

  // ---------- Compiling a scheme ----------

  datatype CompiledGroup = CompiledGroup(
    id: string,
    buildRanges: seq<SchemeRange>,
    versionRanges: seq<SchemeRange>,
    eventIDRules: seq<Rule>,
    eventDataRules: map<string, seq<Rule>>)

  datatype Validator = Validator(groups: map<string, CompiledGroup>, globals: Tables, allowAll: bool)

  /** The fields that some event of the group declares as anonymized. */
  function AnonymizedFields(afs: seq<AnonymizedField>): set<string> {
    set af, f | af in afs && f in af.fields :: f
  }

  method CollectAnonymizedFields(afs: seq<AnonymizedField>) returns (out: set<string>)
    ensures out == AnonymizedFields(afs)
  {
    out := {};
    for i := 0 to |afs|
      invariant out == AnonymizedFields(afs[..i])
    {
      var fields := afs[i].fields;
      ghost var before := out;
      for j := 0 to |fields|
        invariant out == before + set f | f in fields[..j]
      {
        assert fields[..j + 1] == fields[..j] + [fields[j]];
        out := out + {fields[j]};
      }
      assert fields[..|fields|] == fields;
      assert afs[..i + 1] == afs[..i] + [afs[i]];
    }
    assert afs[..|afs|] == afs;
  }

  /** A field's rules in order; an anonymized field may also hold a hash. */
  function FieldChain(en: Engine, exprs: seq<string>, t: Tables, anonymized: bool): seq<Rule> {
    ParseAll(en, exprs, t) + if anonymized then [RegexpRule(HASH_PATTERN)] else []
  }

  function DataRules(en: Engine, eventData: map<string, seq<string>>, t: Tables, anonymized: set<string>)
    : map<string, seq<Rule>>
  {
    map key | key in eventData && FieldChain(en, eventData[key], t, key in anonymized) != [] ::
      FieldChain(en, eventData[key], t, key in anonymized)
  }

  function GroupOf(en: Engine, g: GroupSchema, globals: Tables): CompiledGroup {
    match g.rules
    case None => CompiledGroup(g.id, g.builds, g.versions, [], map[])
    case Some(rules) =>
      var t := Overlay(en, globals, rules);
      CompiledGroup(g.id, g.builds, g.versions, ParseAll(en, rules.eventID, t),
                    DataRules(en, rules.eventData, t, AnonymizedFields(g.anonymizedFields)))
  }

  /** By group ID; of two groups with one ID the later counts. */
  function GroupsOf(en: Engine, groups: seq<GroupSchema>, globals: Tables): map<string, CompiledGroup> {
    if groups == [] then map[]
    else
      var g := groups[|groups| - 1];
      GroupsOf(en, groups[..|groups| - 1], globals)[g.id := GroupOf(en, g, globals)]
  }

  function Compile(en: Engine, s: Scheme): Validator {
    var globals := TablesOf(en, s.rules);
    Validator(GroupsOf(en, s.groups, globals), globals, false)
  }

  method ParseRules(en: Engine, exprs: seq<string>, t: Tables) returns (rules: seq<Rule>)
    ensures rules == ParseAll(en, exprs, t)
  {
    hide ParseRule;
    rules := [];
    for i := 0 to |exprs|
      invariant rules == ParseAll(en, exprs[..i], t)
    {
      rules := rules + [ParseRule(en, exprs[i], t)];
    }
    assert exprs[..|exprs|] == exprs;
  }

  method CompileDataRules(en: Engine, eventData: map<string, seq<string>>, t: Tables, anonymized: set<string>)
    returns (out: map<string, seq<Rule>>)
    ensures out == DataRules(en, eventData, t, anonymized)
  {
    hide ParseAll;
    out := map[];
    var todo := eventData.Keys;
    while todo != {}
      invariant todo <= eventData.Keys
      invariant out.Keys <= eventData.Keys - todo
      invariant forall key | key in eventData.Keys - todo ::
        var chain := FieldChain(en, eventData[key], t, key in anonymized);
        if chain == [] then key !in out else key in out && out[key] == chain
    {
      var key :| key in todo;
      var rules := ParseRules(en, eventData[key], t);
      if key in anonymized {
        rules := rules + [RegexpRule(HASH_PATTERN)];
      }
      if |rules| > 0 {
        out := out[key := rules];
      }
      todo := todo - {key};
    }
    assert out == DataRules(en, eventData, t, anonymized);
  }

  method CompileGroup(en: Engine, g: GroupSchema, globals: Tables) returns (cg: CompiledGroup)
    ensures cg == GroupOf(en, g, globals)
  {
    cg := CompiledGroup(g.id, g.builds, g.versions, [], map[]);
    var anonymized := CollectAnonymizedFields(g.anonymizedFields);
    if g.rules.Some? {
      var t := MergeRules(en, globals, g.rules.value);
      var ids := ParseRules(en, g.rules.value.eventID, t);
      var data := CompileDataRules(en, g.rules.value.eventData, t, anonymized);
      cg := cg.(eventIDRules := ids, eventDataRules := data);
    }
  }

  method NewValidator(en: Engine, s: Option<Scheme>) returns (r: Option<Validator>)
    ensures r == match s case None => None case Some(scheme) => Some(Compile(en, scheme))
  {
    if s.None? {
      return None;
    }
    var globals := CompileGlobalRules(en, s.value.rules);
    var schemas := s.value.groups;
    var groups: map<string, CompiledGroup> := map[];
    for i := 0 to |schemas|
      invariant groups == GroupsOf(en, schemas[..i], globals)
    {
      assert schemas[..i + 1][..i] == schemas[..i];
      var cg := CompileGroup(en, schemas[i], globals);
      groups := groups[schemas[i].id := cg];
    }
    assert schemas[..|schemas|] == schemas;
    r := Some(Validator(groups, globals, false));
  }

  // ---------- Validating an event ----------

  predicate AcceptsBuildVersion(g: CompiledGroup, build: string, version: Int64) {
    && (g.buildRanges != [] ==> exists r :: r in g.buildRanges && InBuildRange(r, build))
    && (g.versionRanges != [] ==> exists r :: r in g.versionRanges && InVersionRange(r, version))
  }

  function FindGroup(v: Validator, id: string): Option<CompiledGroup> {
    if id in v.groups then Some(v.groups[id]) else None
  }

  function ValidEventID(en: Engine, id: string, g: Option<CompiledGroup>): string {
    if Reserved(id) then id
    else if g.None? || g.value.eventIDRules == [] then UNDEFINED
    else if Verdict(en, g.value.eventIDRules, EscapeIDOrValue(id)) == Accepted then id
    else UNMATCHED
  }

  /** How values that are lists or objects are printed for rule matching; the model leaves it open. */
  type Printer = Value -> string

  function TextOf(printer: Printer, v: Value): string {
    if v.IsScalar() then ScalarText(v) else printer(v)
  }

  /** What the rules of its field make of a value. */
  function CheckedValue(en: Engine, printer: Printer, rules: seq<Rule>, raw: Value): Value {
    if raw.Str? && Reserved(raw.s) then raw
    else
      match Verdict(en, rules, EscapeIDOrValue(TextOf(printer, raw)))
      case Accepted => raw
      case IncorrectRule => Str(INCORRECT)
      case _ => Str(UNMATCHED)
  }

  /** The key and value under which an entry of the data goes on. */
  function OutKey(rules: map<string, seq<Rule>>, key: string): string {
    if key in rules then key else UNDEFINED
  }

  function OutValue(en: Engine, printer: Printer, rules: map<string, seq<Rule>>, key: string, raw: Value): Value {
    if key in rules then CheckedValue(en, printer, rules[key], raw) else Str(UNDEFINED)
  }

  /** out holds, under each key that some entry of data goes to, the value of one such entry. Several entries
      meet at the undefined-rule sentinel; if that is a declared key too, the winner depends on the iteration order. */
  ghost predicate IsValidData(
    en: Engine, printer: Printer, rules: map<string, seq<Rule>>, data: map<string, Value>, out: map<string, Value>)
  {
    && (forall key | key in data :: OutKey(rules, key) in out)
    && (forall k | k in out :: GoesTo(en, printer, rules, data, k, out[k]))
  }

  ghost predicate GoesTo(
    en: Engine, printer: Printer, rules: map<string, seq<Rule>>, data: map<string, Value>, k: string, w: Value)
  {
    exists key :: key in data && OutKey(rules, key) == k && OutValue(en, printer, rules, key, data[key]) == w
  }

  method ValidateEventData(en: Engine, printer: Printer, rules: map<string, seq<Rule>>, data: map<string, Value>)
    returns (out: map<string, Value>)
    ensures IsValidData(en, printer, rules, data, out)
  {
    hide Reserved, EscapeIDOrValue, TextOf;
    out := map[];
    var todo := data.Keys;
    while todo != {}
      invariant todo <= data.Keys
      invariant forall key | key in data.Keys - todo :: OutKey(rules, key) in out
      invariant forall k | k in out :: GoesTo(en, printer, rules, data, k, out[k])
    {
      var key :| key in todo;
      todo := todo - {key};
      var raw := data[key];
      if key !in rules {
        out := out[UNDEFINED := Str(UNDEFINED)];
        assert GoesTo(en, printer, rules, data, UNDEFINED, Str(UNDEFINED));
        continue;
      }
      assert GoesTo(en, printer, rules, data, key, OutValue(en, printer, rules, key, raw));
      if raw.Str? && Reserved(raw.s) {
        out := out[key := raw];
        continue;
      }
      var text := EscapeInternal(TextOf(printer, raw), "", true);
      assert text == EscapeIDOrValue(TextOf(printer, raw)) by { EscapeMeansValue(TextOf(printer, raw)); }
      var verdict := AcceptRules(en, rules[key], text);
      match verdict {
        case Accepted => out := out[key := raw];
        case IncorrectRule => out := out[key := Str(INCORRECT)];
        case _ => out := out[key := Str(UNMATCHED)];
      }
    }
  }

  lemma EscapeMeansValue(s: string)
    ensures EscapeAll(s, "", true) == EscapeIDOrValue(s)
  {
  }

  /** The validated data of an event: nothing stays nothing, unless the group is unknown. */
  ghost predicate IsValidEventData(
    en: Engine, printer: Printer, g: Option<CompiledGroup>, data: Option<map<string, Value>>,
    out: Option<map<string, Value>>)
  {
    match g
    case None => out == Some(map[UNDEFINED := Str(UNDEFINED)])
    case Some(cg) =>
      match data
      case None => out == None
      case Some(d) => out.Some? && IsValidData(en, printer, cg.eventDataRules, d, out.value)
  }

  /** r is what Validate may return for e: the rewritten event, or nothing when e is dropped. */
  ghost predicate IsValidated(en: Engine, printer: Printer, v: Validator, e: LogEvent, r: Option<LogEvent>) {
    var g := FindGroup(v, e.group.id);
    if v.allowAll then r == Some(e)
    else if g.Some? && !AcceptsBuildVersion(g.value, e.build, e.group.version) then r == None
    else
      && r.Some?
      && r.value == e.(event := r.value.event.(count := e.event.count))
      && r.value.event.id == ValidEventID(en, e.event.id, g)
      && IsValidEventData(en, printer, g, e.event.data, r.value.event.data)
  }

  method Validate(en: Engine, printer: Printer, v: Validator, e: LogEvent) returns (r: Option<LogEvent>)
    ensures IsValidated(en, printer, v, e, r)
  {
    hide Reserved, Verdict, EscapeIDOrValue, InBuildRange, InVersionRange, IsValidData;
    if v.allowAll {
      return Some(e);
    }
    var g := FindGroup(v, e.group.id);
    if g.Some? {
      var ok := InRanges(g.value, e.build, e.group.version);
      if !ok {
        return None;
      }
    }
    var id := ValidEventID(en, e.event.id, g);
    var data: Option<map<string, Value>>;
    if g.None? {
      data := Some(map[UNDEFINED := Str(UNDEFINED)]);
    } else if e.event.data.None? {
      data := None;
    } else {
      var out := ValidateEventData(en, printer, g.value.eventDataRules, e.event.data.value);
      data := Some(out);
    }
    r := Some(e.(event := e.event.(id := id, data := data)));
  }

  method InRanges(g: CompiledGroup, build: string, version: Int64) returns (ok: bool)
    ensures ok <==> AcceptsBuildVersion(g, build, version)
  {
    hide InBuildRange, InVersionRange;
    if |g.buildRanges| > 0 {
      var inside := AcceptsIn(g.buildRanges, build);
      if !inside {
        return false;
      }
    }
    if |g.versionRanges| > 0 {
      var inside := AcceptsInVersion(g.versionRanges, version);
      if !inside {
        return false;
      }
    }
    return true;
  }

  // ---------- Validation is stable ----------

  lemma SentinelsAreReserved()
    ensures Reserved(UNDEFINED) && Reserved(UNMATCHED) && Reserved(INCORRECT)
  {
  }

  lemma CheckedValueIsFixed(en: Engine, printer: Printer, rules: seq<Rule>, raw: Value)
    ensures var w := CheckedValue(en, printer, rules, raw); CheckedValue(en, printer, rules, w) == w
  {
    SentinelsAreReserved();
    hide Reserved, Verdict, EscapeIDOrValue, TextOf;
  }

  /** Every entry of validated data stays where it is when it is validated again. */
  lemma ValidEntryIsFixed(
    en: Engine, printer: Printer, rules: map<string, seq<Rule>>, data: map<string, Value>, k: string, w: Value)
    requires GoesTo(en, printer, rules, data, k, w)
    ensures OutKey(rules, k) == k && OutValue(en, printer, rules, k, w) == w
  {
    SentinelsAreReserved();
    hide Reserved;
    var key :| key in data && OutKey(rules, key) == k && OutValue(en, printer, rules, key, data[key]) == w;
    if key in rules {
      CheckedValueIsFixed(en, printer, rules[key], data[key]);
    }
  }

  lemma ValidDataIsFixed(
    en: Engine, printer: Printer, rules: map<string, seq<Rule>>,
    data: map<string, Value>, out: map<string, Value>, again: map<string, Value>)
    requires IsValidData(en, printer, rules, data, out) && IsValidData(en, printer, rules, out, again)
    ensures again == out
  {
    hide OutKey, OutValue, GoesTo;
    forall k | k in out ensures k in again && OutKey(rules, k) == k {
      ValidEntryIsFixed(en, printer, rules, data, k, out[k]);
    }
    forall k | k in again ensures k in out && again[k] == out[k] {
      var key := SourceOf(en, printer, rules, out, k, again[k]);
      ValidEntryIsFixed(en, printer, rules, data, key, out[key]);
    }
  }

  lemma SourceOf(
    en: Engine, printer: Printer, rules: map<string, seq<Rule>>, data: map<string, Value>, k: string, w: Value)
    returns (key: string)
    requires GoesTo(en, printer, rules, data, k, w)
    ensures key in data && OutKey(rules, key) == k && OutValue(en, printer, rules, key, data[key]) == w
  {
    key :| key in data && OutKey(rules, key) == k && OutValue(en, printer, rules, key, data[key]) == w;
  }

  lemma ValidEventIDIsFixed(en: Engine, id: string, g: Option<CompiledGroup>)
    ensures var w := ValidEventID(en, id, g); ValidEventID(en, w, g) == w
  {
    SentinelsAreReserved();
    hide Reserved, Verdict, EscapeIDOrValue;
  }

  /** An event that was kept is kept again, unchanged. */
  lemma ValidateIsIdempotent(
    en: Engine, printer: Printer, v: Validator, e: LogEvent, kept: LogEvent, again: Option<LogEvent>)
    requires IsValidated(en, printer, v, e, Some(kept)) && IsValidated(en, printer, v, kept, again)
    ensures again == Some(kept)
  {
    hide AcceptsBuildVersion, ValidEventID, IsValidData;
    if !v.allowAll {
      var g := FindGroup(v, e.group.id);
      ValidEventIDIsFixed(en, e.event.id, g);
      if g.Some? && e.event.data.Some? {
        ValidDataIsFixed(en, printer, g.value.eventDataRules, e.event.data.value, kept.event.data.value,
                         again.value.event.data.value);
      }
    }
  }

  /** When no declared field is named like the undefined-rule sentinel, the iteration order makes no difference. */
  lemma ValidDataIsUnique(
    en: Engine, printer: Printer, rules: map<string, seq<Rule>>,
    data: map<string, Value>, out: map<string, Value>, other: map<string, Value>)
    requires UNDEFINED !in rules
    requires IsValidData(en, printer, rules, data, out) && IsValidData(en, printer, rules, data, other)
    ensures out == other
  {
    EntriesAgree(en, printer, rules, data, out, other);
    EntriesAgree(en, printer, rules, data, other, out);
  }

  lemma EntriesAgree(
    en: Engine, printer: Printer, rules: map<string, seq<Rule>>,
    data: map<string, Value>, out: map<string, Value>, other: map<string, Value>)
    requires UNDEFINED !in rules
    requires IsValidData(en, printer, rules, data, out) && IsValidData(en, printer, rules, data, other)
    ensures forall k | k in out :: k in other && other[k] == out[k]
  {
    hide CheckedValue;
    forall k | k in out ensures k in other && other[k] == out[k] {
      var key := SourceOf(en, printer, rules, data, k, out[k]);
      var key' := SourceOf(en, printer, rules, data, k, other[k]);
    }
  }

  // ---------- What a compiled scheme does ----------

  lemma {:induction false} GroupsOfLast(en: Engine, groups: seq<GroupSchema>, globals: Tables, i: nat)
    requires i < |groups| && forall j | i < j < |groups| :: groups[j].id != groups[i].id
    ensures groups[i].id in GroupsOf(en, groups, globals)
    ensures GroupsOf(en, groups, globals)[groups[i].id] == GroupOf(en, groups[i], globals)
  {
    hide GroupOf;
    if i < |groups| - 1 {
      GroupsOfLast(en, groups[..|groups| - 1], globals, i);
    }
  }

  /** Group i is the last one of the scheme with its ID. */
  predicate IsLastOfID(s: Scheme, i: nat) {
    i < |s.groups| && forall j | i < j < |s.groups| :: s.groups[j].id != s.groups[i].id
  }

  /** The tables that the rules of a group are parsed with. */
  function GroupTables(en: Engine, s: Scheme, local: SchemeRules): Tables {
    Overlay(en, TablesOf(en, s.rules), local)
  }

  /** What the validator holds for a group of the scheme: its ranges; the rules for event IDs, one by one; and for
      each field that has rules, or is anonymized in some event, its rules one by one, and then the hash rule if it
      is anonymized. */
  lemma CompiledGroupMeaning(en: Engine, s: Scheme, i: nat, local: SchemeRules) returns (cg: CompiledGroup)
    requires IsLastOfID(s, i) && s.groups[i].rules == Some(local)
    ensures FindGroup(Compile(en, s), s.groups[i].id) == Some(cg)
    ensures cg.buildRanges == s.groups[i].builds && cg.versionRanges == s.groups[i].versions
    ensures |cg.eventIDRules| == |local.eventID|
    ensures forall n | 0 <= n < |local.eventID| ::
              cg.eventIDRules[n] == ParseRule(en, local.eventID[n], GroupTables(en, s, local))
    ensures forall key :: key in cg.eventDataRules ==> key in local.eventData
    ensures forall key | key in local.eventData ::
              var exprs := local.eventData[key];
              var hashed := exists af :: af in s.groups[i].anonymizedFields && key in af.fields;
              && (key in cg.eventDataRules <==> exprs != [] || hashed)
              && (key in cg.eventDataRules ==>
                    && |cg.eventDataRules[key]| == |exprs| + (if hashed then 1 else 0)
                    && (forall n | 0 <= n < |exprs| ::
                          cg.eventDataRules[key][n] == ParseRule(en, exprs[n], GroupTables(en, s, local)))
                    && (hashed ==> cg.eventDataRules[key][|exprs|] == RegexpRule("[0-9a-f]{64}(#[SC])+")))
  {
    GroupsOfLast(en, s.groups, TablesOf(en, s.rules), i);
    cg := GroupOf(en, s.groups[i], TablesOf(en, s.rules));
    hide ParseRule, TablesOf, Overlay;
    forall key | key in local.eventData
      ensures key in AnonymizedFields(s.groups[i].anonymizedFields) <==>
              exists af :: af in s.groups[i].anonymizedFields && key in af.fields
    {
    }
  }

  /** A reference in a rule of a group that has no entry of its own for the name resolves to the scheme's entry. */
  lemma GroupRuleResolves(
    en: Engine, s: Scheme, shared: SchemeRules, i: nat, local: SchemeRules, key: string, n: nat, ref: string)
    requires IsLastOfID(s, i) && s.groups[i].rules == Some(local) && s.rules == Some(shared) && Trimmed(ref)
    requires key in local.eventData && n < |local.eventData[key]|
    requires ref !in local.ranges && ref !in local.enums && ref !in local.regexps
    ensures var cg, expr := FindGroup(Compile(en, s), s.groups[i].id), local.eventData[key][n];
            && cg.Some? && key in cg.value.eventDataRules && n < |cg.value.eventDataRules[key]|
            && var rule := cg.value.eventDataRules[key][n];
               && (expr == RangeRefExpr(ref) ==>
                     rule == if ref in shared.ranges then RangeRule(shared.ranges[ref]) else IncorrectStub)
               && (expr == EnumRefExpr(ref) ==>
                     rule == if ref in shared.enums && shared.enums[ref] != []
                             then EnumRule(set v | v in shared.enums[ref] :: TrimSpace(v)) else IncorrectStub)
               && (expr == RegexpRefExpr(ref) ==>
                     rule == if ref in shared.regexps && en.Compiles(shared.regexps[ref])
                             then RegexpRule(shared.regexps[ref]) else IncorrectStub)
  {
    var cg := CompiledGroupMeaning(en, s, i, local);
    hide ParseRule, RangeRefExpr, EnumRefExpr, RegexpRefExpr, TablesOf, Overlay, FindGroup, Compile, TrimSpace, EnumOf;
    LocalReferencesComeFirst(en, Some(shared), local, ref);
    SchemeReferencesResolve(en, shared, ref);
  }

  /** A group with one build range and no version ranges drops exactly the events from builds before the lower bound,
      or not before the upper one; an empty bound is open. */
  lemma OutsideBuildsIsDropped(
    en: Engine, printer: Printer, s: Scheme, i: nat, local: SchemeRules, from: string, to: string,
    e: LogEvent, r: Option<LogEvent>)
    requires IsLastOfID(s, i) && s.groups[i].rules == Some(local) && e.group.id == s.groups[i].id
    requires s.groups[i].builds == [SchemeRange(from, to)] && s.groups[i].versions == []
    requires NonNegative(BuildNumbers(from)) && NonNegative(BuildNumbers(to)) && NonNegative(BuildNumbers(e.build))
    requires IsValidated(en, printer, Compile(en, s), e, r)
    ensures r == None <==>
            || (from != "" && Before(BuildNumbers(e.build), BuildNumbers(from)))
            || (to != "" && !Before(BuildNumbers(e.build), BuildNumbers(to)))
  {
    var cg := CompiledGroupMeaning(en, s, i, local);
    BuildRangeMeaning(from, to, e.build);
    CompiledChecks(en, s);
    hide Compile, FindGroup, InBuildRange, Before, BuildNumbers, ValidEventID, IsValidEventData, GroupTables;
    assert cg.buildRanges[0] == SchemeRange(from, to);
    assert (exists x :: x in cg.buildRanges && InBuildRange(x, e.build)) <==>
        InBuildRange(SchemeRange(from, to), e.build);
  }

  lemma CompiledChecks(en: Engine, s: Scheme)
    ensures !Compile(en, s).allowAll
  {
  }

  // ---------- Event IDs and values ----------

  /** The names that pass as they are: the system's own events, and the validator's results. */
  lemma ReservedNames(s: string)
    ensures Reserved(s) <==>
            || s == "registered" || s == "invoked" || s == "invocation.failed"
            || s == "validation.too_many_events" || s == "validation.too_many_events.alert"
            || s == "accepted" || s == "third.party" || s == "validation.unmatched_rule"
            || s == "validation.incorrect_rule" || s == "validation.undefined_rule"
            || s == "validation.unreachable_metadata" || s == "validation.dictionary_not_found"
            || s == "validation.general_dictionary_error" || s == "validation.unreachable.whitelist"
            || s == "validation.performance_issue" || s == "validation.required_field_missed"
            || s == "validation.default_value_applied"
  {
  }

  /** Some rule of the chain accepts the text, and all before it reject it. */
  ghost predicate AcceptsFirst(en: Engine, rules: seq<Rule>, v: string) {
    exists i :: 0 <= i < |rules| && ValidateRule(en, rules[i], v) == Accepted && IsRejectedBefore(en, rules, v, i)
  }

  ghost predicate BreaksFirst(en: Engine, rules: seq<Rule>, v: string) {
    exists i :: 0 <= i < |rules| && ValidateRule(en, rules[i], v) == IncorrectRule && IsRejectedBefore(en, rules, v, i)
  }

  /** What becomes of an event ID. */
  lemma ValidEventIDMeaning(en: Engine, id: string, g: Option<CompiledGroup>)
    ensures var out := ValidEventID(en, id, g);
            && (Reserved(id) ==> out == id)
            && (!Reserved(id) && (g.None? || g.value.eventIDRules == []) ==> out == "validation.undefined_rule")
            && (!Reserved(id) && g.Some? && g.value.eventIDRules != [] ==>
                  out == if AcceptsFirst(en, g.value.eventIDRules, EscapeIDOrValue(id)) then id
                         else "validation.unmatched_rule")
  {
    hide Reserved, EscapeIDOrValue;
    if g.Some? {
      VerdictIsFirst(en, g.value.eventIDRules, EscapeIDOrValue(id));
    }
    hide ValidateRule, Verdict, IsRejectedBefore;
  }

  /** What becomes of a value under the rules of its field. */
  lemma CheckedValueMeaning(en: Engine, printer: Printer, rules: seq<Rule>, raw: Value)
    ensures var out, text := CheckedValue(en, printer, rules, raw), EscapeIDOrValue(TextOf(printer, raw));
            && (raw.Str? && Reserved(raw.s) ==> out == raw)
            && (!(raw.Str? && Reserved(raw.s)) ==>
                  out == if AcceptsFirst(en, rules, text) then raw
                         else if BreaksFirst(en, rules, text) then Str("validation.incorrect_rule")
                         else Str("validation.unmatched_rule"))
  {
    hide Reserved, EscapeIDOrValue, TextOf;
    VerdictIsFirst(en, rules, EscapeIDOrValue(TextOf(printer, raw)));
    hide ValidateRule, Verdict, IsRejectedBefore;
  }

  /** What becomes of a whole data map when no declared field is named like the sentinel: declared fields stay, each
      with what its rules make of its value; the others are replaced by one pair of sentinels. */
  lemma ValidDataMeaning(
    en: Engine, printer: Printer, rules: map<string, seq<Rule>>, data: map<string, Value>, out: map<string, Value>)
    requires IsValidData(en, printer, rules, data, out) && "validation.undefined_rule" !in rules
    ensures forall k | k in data && k in rules ::
              k in out && out[k] == CheckedValue(en, printer, rules[k], data[k])
    ensures (exists k :: k in data && k !in rules) <==> "validation.undefined_rule" in out
    ensures "validation.undefined_rule" in out ==>
              out["validation.undefined_rule"] == Str("validation.undefined_rule")
    ensures forall k | k in out :: k == "validation.undefined_rule" || (k in data && k in rules)
  {
    hide CheckedValue;
    forall k | k in data && k in rules ensures k in out && out[k] == CheckedValue(en, printer, rules[k], data[k]) {
      assert OutKey(rules, k) == k;
      var key := SourceOf(en, printer, rules, data, k, out[k]);
    }
    if k :| k in data && k !in rules {
      assert OutKey(rules, k) == UNDEFINED;
    }
    forall k | k in out ensures k == UNDEFINED || (k in data && k in rules) {
      var key := SourceOf(en, printer, rules, data, k, out[k]);
    }
    if UNDEFINED in out {
      var key := SourceOf(en, printer, rules, data, UNDEFINED, out[UNDEFINED]);
    }
  }

  // ---------- Scalars ----------

  lemma ItoaIsClean(n: Int64)
    ensures EscapeIDOrValue(Itoa(n)) == Itoa(n)
  {
    hide Itoa;
    ItoaChars(n);
    var s := Itoa(n);
    forall i | 0 <= i < |s| ensures !NeedsEscape(s[i], "") {
      assert s[i] in s;
    }
    CleanIsUnchanged(s, "", true);
  }

  /** An int is kept under a range exactly when it lies in it, bounds included. */
  lemma IntUnderRange(en: Engine, printer: Printer, t: Tables, from: Int64, to: Int64, n: Int64)
    ensures CheckedValue(en, printer, [ParseRule(en, RangeExpr(from, to), t)], Int(n)) ==
            if from <= n <= to then Int(n) else Str("validation.unmatched_rule")
  {
    hide ParseRule, RangeExpr, Itoa, Atoi, EscapeIDOrValue;
    RangeExprParses(en, from, to, t);
    ItoaIsClean(n);
    RangeOfNumber(en, IntRange(from, to), n);
    VerdictOfOne(en, RangeRule(IntRange(from, to)), Itoa(n));
  }

  /** A text without white space at its ends and without bars, under the enum of it alone. */
  lemma OneValueRule(en: Engine, v: string, t: Tables)
    requires Trimmed(v) && '|' !in v
    ensures ParseRule(en, EnumExpr([v]), t) == EnumRule({v})
  {
    TrimmedIsKept(v);
    hide ParseRule, TrimSpace;
    EnumExprParses(en, [v], t);
    assert (set x | x in [v] :: TrimSpace(x)) == {TrimSpace(v)};
  }

  /** A scalar that is not a string is kept under the enum of one text exactly when it is printed as that text. */
  lemma ScalarUnderEnum(en: Engine, printer: Printer, t: Tables, w: string, raw: Scalar)
    requires Trimmed(w) && '|' !in w && !raw.Str? && EscapeIDOrValue(ScalarText(raw)) == ScalarText(raw)
    ensures CheckedValue(en, printer, [ParseRule(en, EnumExpr([w]), t)], raw) ==
            if ScalarText(raw) == w then raw else Str("validation.unmatched_rule")
  {
    OneValueRule(en, w, t);
    hide ParseRule, EnumExpr, EscapeIDOrValue, ScalarText, Trimmed;
    VerdictOfOne(en, EnumRule({w}), ScalarText(raw));
  }

  /** An int is kept under an enum of one printed int exactly when it is that int. */
  lemma IntUnderEnum(en: Engine, printer: Printer, t: Tables, m: Int64, n: Int64)
    ensures CheckedValue(en, printer, [ParseRule(en, EnumExpr([Itoa(m)]), t)], Int(n)) ==
            if n == m then Int(n) else Str("validation.unmatched_rule")
  {
    hide ParseRule, EnumExpr, Itoa, Atoi, EscapeIDOrValue, CheckedValue;
    ItoaIsTrimmed(m);
    ItoaChars(m);
    ItoaIsClean(n);
    AtoiItoa(m);
    AtoiItoa(n);
    ScalarUnderEnum(en, printer, t, Itoa(m), Int(n));
  }

  /** A bool is kept under an enum of one of the two words exactly when it is what the word says. */
  lemma BoolUnderEnum(en: Engine, printer: Printer, t: Tables, b: bool)
    ensures CheckedValue(en, printer, [ParseRule(en, EnumExpr(["true"]), t)], Bool(b)) ==
            if b then Bool(b) else Str("validation.unmatched_rule")
    ensures CheckedValue(en, printer, [ParseRule(en, EnumExpr(["false"]), t)], Bool(b)) ==
            if b then Str("validation.unmatched_rule") else Bool(b)
  {
    hide ParseRule, EnumExpr, EscapeIDOrValue, CheckedValue, Trimmed;
    TrueIsPlain();
    FalseIsPlain();
    ScalarUnderEnum(en, printer, t, "true", Bool(b));
    ScalarUnderEnum(en, printer, t, "false", Bool(b));
  }

  /** Any other scalar is kept under an enum of one text exactly when it is printed as that text; null is printed as
      nothing. */
  lemma OtherUnderEnum(en: Engine, printer: Printer, t: Tables, w: string, kind: string, text: string)
    requires Trimmed(w) && '|' !in w && EscapeIDOrValue(text) == text
    ensures CheckedValue(en, printer, [ParseRule(en, EnumExpr([w]), t)], Other(kind, text)) ==
            if text == w then Other(kind, text) else Str("validation.unmatched_rule")
    ensures CheckedValue(en, printer, [ParseRule(en, EnumExpr([w]), t)], Null) ==
            if w == "" then Null else Str("validation.unmatched_rule")
  {
    assert EscapeIDOrValue("") == "";
    hide ParseRule, EnumExpr, EscapeIDOrValue, CheckedValue, Trimmed;
    ScalarUnderEnum(en, printer, t, w, Other(kind, text));
    ScalarUnderEnum(en, printer, t, w, Null);
  }

  lemma TrueIsPlain()
    ensures Trimmed("true") && '|' !in "true" && EscapeIDOrValue("true") == "true"
  {
    PlainNameIsKept("true");
  }

  lemma FalseIsPlain()
    ensures Trimmed("false") && '|' !in "false" && EscapeIDOrValue("false") == "false"
  {
    PlainNameIsKept("false");
  }
}
