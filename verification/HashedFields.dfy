/** Which tracked values of a field that a definition anonymizes are hashed, and what is written for the others. The
    anonymizer looks the event up by the ID it was tracked with, the validator by the escaped ID
    (anonymizer.go, validator.go, logger.go). */
module HashedFields {
  import opened Basics
  import opened GoStrings
  import opened GoNumbers
  import opened Events
  import opened Device
  import opened Escaper
  import opened Scheme
  import opened Rules
  import opened Definition
  import opened Validator
  import opened Anonymizer
  import opened Fallback
  import opened Pipeline
  import opened Guarantees
  import Logger

  /** The logger uses the validator and the anonymizer that are built from a fallback of the definition. */
  ghost predicate UsesFallback(l: Logger.Logger, d: Definition, s: Scheme, salt: string) {
    && WellFormed(d) && (forall i | 0 <= i < |d.groups| :: FlatEvents(d.groups[i].events)) && IsFallback(d, s)
    && l.validator == Compile(l.engine, s) && l.anonymizer == Some(AnonymizerOf(s, salt))
  }

  /** The value of the field that reaches the validator: hashed if and only if the event with the very ID that was
      tracked is declared and anonymizes the field. */
  function PreparedValue(
    l: Logger.Logger, salt: string, g: GroupDefinition, eventID: string, path: string, raw: Scalar): Scalar
  {
    if HashesAt(g, eventID, path) then Str(Anonymize(l.sha, salt, ScalarText(raw))) else raw
  }

  lemma {:induction false} FlatPathHasNoDot(events: seq<EventDefinition>, path: string)
    requires FlatEvents(events) && path in DeclaredPaths(events)
    ensures '.' !in path && path != UNDEFINED
  {
    var e, f :| e in events && f in e.fields && f.path == path;
    var i :| 0 <= i < |events| && events[i] == e;
    var j :| 0 <= j < |e.fields| && e.fields[j] == f;
    assert IsFlat(events[i].fields[j]);
    UndefinedHasDot(path);
  }

  lemma EscapedPathHasNoDot(path: string)
    requires '.' !in path
    ensures '.' !in EscapeFieldName(path)
  {
    hide VALIDATION_RESULT_TYPES;
    EscapeIsIdempotent(path, FIELD_NAME_SYMBOLS, false);
  }

  lemma UndefinedHasDot(s: string)
    requires '.' !in s
    ensures s != UNDEFINED
  {
    assert UNDEFINED[10] == '.';
  }

  /** The entry of a declared field in validated data. */
  lemma ValidatedEntry(
    en: Engine, printer: Printer, rules: map<string, seq<Rule>>,
    data: map<string, Value>, kept: map<string, Value>, path: string)
    requires IsValidData(en, printer, rules, data, kept) && path in data && path in rules && path != UNDEFINED
    ensures path in kept && kept[path] == CheckedValue(en, printer, rules[path], data[path])
    ensures forall k | k in kept :: k in data || k == UNDEFINED
    ensures data.Keys == {path} ==> kept.Keys == {path}
  {
    hide CheckedValue, UNDEFINED;
    assert OutKey(rules, path) in kept;
    var key := SourceOf(en, printer, rules, data, path, kept[path]);
    forall k | k in kept ensures (k in data || k == UNDEFINED) && (data.Keys == {path} ==> k == path) {
      var source := SourceOf(en, printer, rules, data, k, kept[k]);
      assert source in data.Keys;
    }
  }

  /** No other field of the data is written under the same name. */
  predicate IsAloneUnder(data: map<string, Value>, path: string) {
    forall k | k in data && k != path :: EscapeFieldName(k) != EscapeFieldName(path)
  }

  lemma OnlySource(data: map<string, Value>, path: string, k: string)
    requires '.' !in path && IsAloneUnder(data, path) && (k in data || k == UNDEFINED)
    requires EscapeFieldName(k) == EscapeFieldName(path)
    ensures k == path
  {
    EscapedPathHasNoDot(path);
    UndefinedHasDot(EscapeFieldName(path));
    SentinelsAreFixed();
    hide EscapeFieldName, EscapeIDOrValue, UNDEFINED;
  }

  lemma WrittenEntry(
    data: map<string, Value>, kept: map<string, Value>, out: map<string, Value>, path: string)
    requires Escaped(Obj(kept), Obj(out)) && path in kept && kept[path].IsScalar() && '.' !in path
    requires IsAloneUnder(data, path) && forall k | k in kept :: k in data || k == UNDEFINED
    ensures EscapeFieldName(path) in out && out[EscapeFieldName(path)] == EscapedScalar(kept[path])
  {
    hide EscapeFieldName, EscapeIDOrValue, UNDEFINED, IsAloneUnder, EscapedScalar;
    var name := EscapeFieldName(path);
    assert name in out;
    assert ComesFrom(Obj(kept), name, out[name]);
    var k :| k in kept && EscapeFieldName(k) == name && Escaped(kept[k], out[name]);
    OnlySource(data, path, k);
    EscapedIsScalar(kept[path], out[name]);
  }

  lemma PreparedIsHashedData(
    l: Logger.Logger, d: Definition, s: Scheme, salt: string, i: nat, eventID: string, data: map<string, Value>,
    path: string)
    requires UsesFallback(l, d, s, salt) && i < |d.groups|
    requires path in data && data[path].IsScalar()
    ensures l.HashedData(d.groups[i].id, eventID, data).Keys == data.Keys
    ensures l.HashedData(d.groups[i].id, eventID, data)[path] ==
            PreparedValue(l, salt, d.groups[i], eventID, path, data[path])
  {
    FallbackHashesDeclaredFields(d, s, salt, i, eventID, path);
    hide WellFormed, IsFallback, FlatEvents, FieldsFor, Compile, TableOf, HashesAt;
  }

  /** What the field's chain makes of the value that reaches the validator. A hash is kept, unless a broken rule stands
      before every rule that accepts it. */
  ghost predicate IsCheckedField(
    l: Logger.Logger, salt: string, g: GroupDefinition, chain: seq<Rule>, eventID: string, path: string, raw: Scalar,
    kept: Value)
  {
    var hash := Anonymize(l.sha, salt, ScalarText(raw));
    && IsCheckedBy(l.engine, l.printer, chain, PreparedValue(l, salt, g, eventID, path, raw), kept)
    && (HashesAt(g, eventID, path) ==> kept == if IsBroken(l.engine, chain, hash) then Str(INCORRECT) else Str(hash))
  }

  lemma PreparedIsChecked(
    l: Logger.Logger, d: Definition, s: Scheme, salt: string, i: nat, eventID: string, path: string, raw: Scalar)
    requires UsesFallback(l, d, s, salt) && i < |d.groups| && path in AnonymizedFieldsOf(d.groups[i].events)
    requires TrimSpace(ScalarText(raw)) != ""
    ensures var g, cg := d.groups[i], FindGroup(l.validator, d.groups[i].id);
            && cg.Some? && path in cg.value.eventDataRules
            && IsCheckedField(l, salt, g, BracedChain(l.engine, d, g, path), eventID, path, raw,
                              CheckedValue(l.engine, l.printer, cg.value.eventDataRules[path],
                                           PreparedValue(l, salt, g, eventID, path, raw)))
  {
    HashSurvives(l.engine, l.printer, l.sha, salt, d, s, i, eventID, path, raw);
    hide WellFormed, IsFallback, FlatEvents, FieldsFor, Compile, FindGroup, HashesAt, AnonymizedFieldsOf;
    hide IsCheckedBy, IsBroken, CheckedValue, BracedChain, Anonymize, IsHash, Anonymized, AnonymizerOf, EscapeIDOrValue;
  }

  /** What the validator makes of a tracked field that is anonymized in some event of its group. */
  lemma TrackedFieldIsChecked(
    l: Logger.Logger, d: Definition, s: Scheme, salt: string, i: nat, group: EventGroup, eventID: string,
    data: map<string, Value>, now: Int64, checked: Option<LogEvent>, w: LogEvent, path: string)
    requires UsesFallback(l, d, s, salt) && i < |d.groups| && group.id == d.groups[i].id && checked.Some?
    requires l.IsTracked(group, eventID, Some(data), now, checked, w)
    requires path in AnonymizedFieldsOf(d.groups[i].events)
    requires path in data && data[path].IsScalar() && TrimSpace(ScalarText(data[path])) != ""
    ensures '.' !in path && checked.value.event.data.Some? && path in checked.value.event.data.value
    ensures forall k | k in checked.value.event.data.value :: k in data || k == UNDEFINED
    ensures data.Keys == {path} ==> checked.value.event.data.value.Keys == {path}
    ensures IsCheckedField(l, salt, d.groups[i], BracedChain(l.engine, d, d.groups[i], path), eventID, path, data[path],
                           checked.value.event.data.value[path])
  {
    hide WellFormed, IsFallback, FlatEvents, Compile, FindGroup, AnonymizedFieldsOf, IsValidData, PreparedValue;
    hide IsCheckedField, CheckedValue, BracedChain, UNDEFINED, AnonymizerOf, DeclaredPaths, Logger.Logger.IsTracked;
    hide Logger.Logger.HashedData;
    AnonymizedIsDeclared(d.groups[i].events, path);
    FlatPathHasNoDot(d.groups[i].events, path);
    PreparedIsHashedData(l, d, s, salt, i, eventID, data, path);
    PreparedIsChecked(l, d, s, salt, i, eventID, path, data[path]);
    var cg := FindGroup(l.validator, group.id).value;
    CompiledChecks(l.engine, s);
    TrackedIsValidated(l, group, eventID, data, now, checked, w, cg);
    ValidatedEntry(l.engine, l.printer, cg.eventDataRules, l.HashedData(group.id, eventID, data),
                   checked.value.event.data.value, path);
  }

  lemma TrackedIsValidated(
    l: Logger.Logger, group: EventGroup, eventID: string, data: map<string, Value>, now: Int64,
    checked: Option<LogEvent>, w: LogEvent, cg: CompiledGroup)
    requires l.IsTracked(group, eventID, Some(data), now, checked, w) && checked.Some?
    requires !l.validator.allowAll && FindGroup(l.validator, group.id) == Some(cg)
    ensures checked.value.event.data.Some?
    ensures IsValidData(l.engine, l.printer, cg.eventDataRules, l.HashedData(group.id, eventID, data),
                        checked.value.event.data.value)
  {
    hide IsValidData, ValidEventID, AcceptsBuildVersion, Logger.Logger.HashedData, Logger.IsEscapedEvent, FindGroup;
  }

  /** What Track writes for a field that the definition anonymizes in some event of the group, for every event ID. The
      value is hashed if and only if the event with that very ID is declared and anonymizes the field. Otherwise
      the field's chain decides about the value itself, and what it keeps is written escaped but not hashed. The ID is
      accepted by its escaped form, so the two need not speak of the same event. */
  lemma TrackedFieldOnWire(
    l: Logger.Logger, d: Definition, s: Scheme, salt: string, i: nat, group: EventGroup, eventID: string,
    data: map<string, Value>, now: Int64, checked: Option<LogEvent>, w: LogEvent, path: string)
    returns (kept: Value)
    requires UsesFallback(l, d, s, salt) && i < |d.groups| && group.id == d.groups[i].id && checked.Some?
    requires l.IsTracked(group, eventID, Some(data), now, checked, w)
    requires path in AnonymizedFieldsOf(d.groups[i].events)
    requires path in data && data[path].IsScalar() && TrimSpace(ScalarText(data[path])) != ""
    ensures kept.IsScalar() && w.event.data.Some?
    ensures IsAloneUnder(data, path) ==>
              && EscapeFieldName(path) in w.event.data.value
              && w.event.data.value[EscapeFieldName(path)] == EscapedScalar(kept)
    ensures IsCheckedField(l, salt, d.groups[i], BracedChain(l.engine, d, d.groups[i], path), eventID, path, data[path],
                           kept)
    ensures var id := EscapeIDOrValue(eventID);
            Reserved(eventID) || (exists e :: e in d.groups[i].events && TrimSpace(e.id) == id) ==> w.event.id == id
  {
    TrackedFieldIsChecked(l, d, s, salt, i, group, eventID, data, now, checked, w, path);
    kept := checked.value.event.data.value[path];
    CheckedIsScalar(l, d.groups[i], salt, eventID, path, data[path], BracedChain(l.engine, d, d.groups[i], path), kept);
    EventIDKeptIffDeclared(l.engine, d, s, i, eventID);
    hide WellFormed, IsFallback, FlatEvents, FieldsFor, Compile, FindGroup, HashesAt, AnonymizedFieldsOf, IsValidData;
    hide IsCheckedField, BracedChain, UNDEFINED, ValidEventID, Escaped, EscapeIDOrValue, Escape, EscapedScalar;
    hide Logger.Logger.HashedData, AcceptsBuildVersion, Logger.IsEscapedIDs, IsAloneUnder, EscapeFieldName, Reserved;
    if IsAloneUnder(data, path) {
      WrittenEntry(data, checked.value.event.data.value, w.event.data.value, path);
    }
  }

  lemma CheckedIsScalar(
    l: Logger.Logger, g: GroupDefinition, salt: string, eventID: string, path: string, raw: Scalar, chain: seq<Rule>,
    out: Value)
    requires IsCheckedField(l, salt, g, chain, eventID, path, raw, out)
    ensures out.IsScalar()
  {
    hide Decides, Reserved, EscapeIDOrValue, HashesAt, Anonymize;
  }

  // ---------- An event whose ID only escapes to the declared one ----------

  /** A definition of one event, "event", with one field, which is anonymized and may hold the text v. */
  function OneHashedField(v: string): (d: Definition)
    ensures |d.groups| == 1
  {
    OneFieldDefinition(FieldDefinition("field", [EnumExpr([v])], "", true, ""))
  }

  const MISSPELT := "event'"

  lemma OneHashedFieldIsGood(en: Engine, v: string)
    requires Trimmed(v) && '|' !in v
    ensures var d := OneHashedField(v);
            && WellFormed(d) && FlatEvents(d.groups[0].events) && "field" in AnonymizedFieldsOf(d.groups[0].events)
            && BracedChain(en, d, d.groups[0], "field") == [EnumRule({v})] + [RegexpRule(HASH_PATTERN)]
  {
    var f := FieldDefinition("field", [EnumExpr([v])], "", true, "");
    var t := DefinitionTables(en, OneHashedField(v));
    OneFieldWellFormed(f);
    OneFieldPaths(f);
    OneRuleChains(en, f, EnumExpr([v]));
    assert WrapBrace(EnumExpr([v])) == "{" + EnumExpr([v]) + "}" by {
      assert EnumExpr([v])[0] == 'e';
    }
    BracedExpression(en, EnumExpr([v]), t);
    OneValueBody(en, v, t);
    TrimmedIsKept(v);
    hide ParseRule, ParseBody, EnumExpr, WrapBrace, WellFormed, FlatEvents, AnonymizedFieldsOf, BracedChain;
    hide DeclaredChain, DefinitionTables, OneFieldDefinition, TrimSpace, Trimmed;
  }

  lemma MisspeltEscapesToDeclared()
    ensures EscapeIDOrValue(MISSPELT) == "event" == TrimSpace("event")
  {
    CleanIsUnchanged("event", "", true);
    EscapeConcat("event", "'", "", true);
    assert EscapeAll("'", "", true) == EscapeChar('\'', "", true) + EscapeAll("", "", true);
    assert "event" + "'" == MISSPELT;
    TrimmedIsKept("event");
  }

  lemma MisspeltIsNotHashed(v: string)
    ensures HashesAt(OneHashedField(v).groups[0], "event", "field")
    ensures !HashesAt(OneHashedField(v).groups[0], MISSPELT, "field")
    ensures exists e :: e in OneHashedField(v).groups[0].events && e.id == "event"
  {
    var g := OneHashedField(v).groups[0];
    var e := g.events[0];
    assert e.fields[0] in e.fields && e in g.events;
    assert Anonymizes(g.events[0].fields, "field");
  }

  /** A chain that starts with an enum rule for v keeps v. */
  lemma KeptByEnum(en: Engine, printer: Printer, v: string, rest: seq<Rule>, out: Value)
    requires IsCheckedBy(en, printer, [EnumRule({v})] + rest, Str(v), out) && EscapeIDOrValue(v) == v
    ensures out == Str(v)
  {
    var chain := [EnumRule({v})] + rest;
    assert ValidateRule(en, chain[0], v) == Accepted;
    assert Decides(en, chain, v, 0, Accepted);
    hide Decides, EscapeIDOrValue, Reserved;
  }

  /** Data of one field is written as one field. */
  lemma OneFieldOnWire(kept: map<string, Value>, out: map<string, Value>, v: string)
    requires Escaped(Obj(kept), Obj(out)) && kept == map["field" := Str(v)] && EscapeIDOrValue(v) == v
    ensures out == map["field" := Str(v)]
  {
    LowerCaseNameIsKept("field");
    hide EscapeFieldName, EscapeIDOrValue;
    assert EscapeFieldName("field") in out;
    forall k | k in out ensures k == "field" && out[k] == Str(v) {
      assert ComesFrom(Obj(kept), k, out[k]);
      EscapedString(v, out[k]);
    }
  }

  /** It does happen: the definition anonymizes the field in its only event. Tracked under an ID that merely escapes to
      that event's, an allowed value is written under the event's ID and is not hashed. */
  lemma MisspeltEventIsWrittenUnhashed(
    l: Logger.Logger, s: Scheme, salt: string, group: EventGroup, v: string, now: Int64,
    checked: Option<LogEvent>, w: LogEvent)
    requires Trimmed(v) && v != "" && '|' !in v && EscapeIDOrValue(v) == v
    requires UsesFallback(l, OneHashedField(v), s, salt) && group.id == OneHashedField(v).groups[0].id && checked.Some?
    requires l.IsTracked(group, MISSPELT, Some(map["field" := Str(v)]), now, checked, w)
    ensures HashesAt(OneHashedField(v).groups[0], "event", "field")
    ensures w.event.id == "event" && w.event.data == Some(map["field" := Str(v)])
  {
    var d, data := OneHashedField(v), map["field" := Str(v)];
    hide OneHashedField, AnonymizedFieldsOf, BracedChain, HashesAt, EscapeIDOrValue, TrimSpace, Trimmed, UsesFallback;
    hide MISSPELT, EscapeFieldName, Reserved, Logger.Logger.IsTracked, IsCheckedField, WellFormed, FlatEvents, Escaped;
    OneHashedFieldIsGood(l.engine, v);
    MisspeltEscapesToDeclared();
    MisspeltIsNotHashed(v);
    TrimmedIsKept(v);
    assert data.Keys == {"field"};
    TrackedFieldIsChecked(l, d, s, salt, 0, group, MISSPELT, data, now, checked, w, "field");
    var kept := checked.value.event.data.value;
    UnhashedIsKept(l, salt, d.groups[0], v, kept["field"]);
    assert kept == map["field" := Str(v)];
    var _ := TrackedFieldOnWire(l, d, s, salt, 0, group, MISSPELT, data, now, checked, w, "field");
    TrackedIsEscaped(l, group, MISSPELT, data, now, checked, w);
    OneFieldOnWire(kept, w.event.data.value, v);
  }

  lemma UnhashedIsKept(l: Logger.Logger, salt: string, g: GroupDefinition, v: string, out: Value)
    requires !HashesAt(g, MISSPELT, "field") && EscapeIDOrValue(v) == v
    requires IsCheckedField(l, salt, g, [EnumRule({v})] + [RegexpRule(HASH_PATTERN)], MISSPELT, "field", Str(v), out)
    ensures out == Str(v)
  {
    hide HashesAt, EscapeIDOrValue, IsCheckedBy, MISSPELT, Anonymize;
    KeptByEnum(l.engine, l.printer, v, [RegexpRule(HASH_PATTERN)], out);
  }

  lemma TrackedIsEscaped(
    l: Logger.Logger, group: EventGroup, eventID: string, data: map<string, Value>, now: Int64,
    checked: Option<LogEvent>, w: LogEvent)
    requires l.IsTracked(group, eventID, Some(data), now, checked, w) && checked.Some? && checked.value.event.data.Some?
    ensures w.event.data.Some? && Escaped(Obj(checked.value.event.data.value), Obj(w.event.data.value))
  {
    hide IsValidated, Escaped, Logger.IsEscapedIDs, Escape, EscapeIDOrValue;
  }
}
