/** Guarantees of the stages together: what reaches the wire, and what becomes of hashed values
    (logger.go, anonymizer.go, validator.go, escaper.go). */
module Pipeline {
  import opened Basics
  import opened GoStrings
  import opened GoNumbers
  import opened Events
  import opened Device
  import opened Escaper
  import opened Scheme
  import opened Rules
  import opened Definition
  import opened Validator
  import opened Anonymizer
  import opened Fallback

  // ---------- Wire soundness ----------

  /** What may be written for a data entry that was src under key: a reserved string; or, when a rule of the key
      accepted it, a string that is the very text accepted, or the unchanged value of another scalar whose text was
      accepted, or the escaped form of a list or an object whose text was accepted. */
  ghost predicate AllowedOnWire(en: Engine, printer: Printer, rules: seq<Rule>, src: Value, x: Value) {
    || (x.Str? && Reserved(x.s))
    || (src.Str? && x.Str? && exists n: nat :: Decides(en, rules, x.s, n, Accepted))
    || (Escaped(src, x) && (src.IsScalar() ==> x == src) &&
        exists n: nat :: Decides(en, rules, EscapeIDOrValue(TextOf(printer, src)), n, Accepted))
  }

  /** k is the escaped form of a declared key whose rules allow x, or the undefined-rule sentinel. */
  ghost predicate EntryOnWire(
    en: Engine, printer: Printer, rules: map<string, seq<Rule>>, data: map<string, Value>, k: string, x: Value)
  {
    || (k == UNDEFINED && x == Str(UNDEFINED))
    || exists key :: key in rules && key in data && EscapeFieldName(key) == k &&
                     AllowedOnWire(en, printer, rules[key], data[key], x)
  }

  lemma CheckedThenEscaped(en: Engine, printer: Printer, rules: seq<Rule>, raw: Value, x: Value)
    requires Escaped(CheckedValue(en, printer, rules, raw), x)
    ensures AllowedOnWire(en, printer, rules, raw, x)
  {
    SentinelsAreReserved();
    var checked := CheckedValue(en, printer, rules, raw);
    if checked.Str? && Reserved(checked.s) {
      ReservedIsPlain(checked.s);
    } else {
      VerdictMeaning(en, rules, EscapeIDOrValue(TextOf(printer, raw)));
      hide Verdict, Decides, EscapeIDOrValue, Reserved;
      assert IsFinal(Accepted);
      assert checked == raw && Verdict(en, rules, EscapeIDOrValue(TextOf(printer, raw))) == Accepted;
    }
  }

  /** Every entry that is written comes from a declared key whose rules allow the value, or is the
      undefined-rule sentinel pair. */
  lemma DataOnWire(
    en: Engine, printer: Printer, rules: map<string, seq<Rule>>,
    data: map<string, Value>, kept: map<string, Value>, w: map<string, Value>)
    requires IsValidData(en, printer, rules, data, kept) && Escaped(Obj(kept), Obj(w))
    ensures forall k | k in w :: EntryOnWire(en, printer, rules, data, k, w[k])
  {
    hide CheckedValue, AllowedOnWire, EscapeFieldName;
    forall k | k in w ensures EntryOnWire(en, printer, rules, data, k, w[k]) {
      assert ComesFrom(Obj(kept), k, w[k]);
      var j :| j in kept && EscapeFieldName(j) == k && Escaped(kept[j], w[k]);
      var key := SourceOf(en, printer, rules, data, j, kept[j]);
      if key in rules {
        CheckedThenEscaped(en, printer, rules[key], data[key], w[k]);
      } else {
        ResultTypesAreFixedPoints(UNDEFINED);
      }
    }
  }

  /** An event ID on the wire is reserved, or the very text that a rule of its group accepted. */
  lemma EventIDOnWire(en: Engine, id: string, g: Option<CompiledGroup>)
    ensures var out := EscapeIDOrValue(ValidEventID(en, id, g));
            Reserved(out) || (g.Some? && exists n: nat :: Decides(en, g.value.eventIDRules, out, n, Accepted))
  {
    SentinelsAreReserved();
    var kept := ValidEventID(en, id, g);
    if Reserved(kept) {
      ReservedIsPlain(kept);
    } else {
      VerdictMeaning(en, g.value.eventIDRules, EscapeIDOrValue(id));
      hide Verdict, Decides, Reserved, EscapeIDOrValue;
      assert IsFinal(Accepted);
    }
  }

  // ---------- The anonymizer built from a fallback ----------

  function FieldsAt(table: FieldTable, group: string, event: string): set<string> {
    if (group, event) in table then table[(group, event)] else {}
  }

  /** The fields that a definition anonymizes in one event. */
  function HashedFields(e: EventDefinition): set<string> {
    set p | p in AnonymizedPaths(e.fields)
  }

  lemma {:induction false} FieldsOfEvents(table: FieldTable, group: string, events: seq<EventDefinition>, k: nat)
    requires GoodEvents(events) && k < |events|
    requires FieldsAt(table, group, events[k].id) == {}
    ensures FieldsAt(WithFields(table, group, AnonymizedOf(events)), group, events[k].id) == HashedFields(events[k])
  {
    hide AnonymizedPaths, GoodEvent, AnonymizedOf, WithFields, FieldsAt, WithField;
    var n := |events| - 1;
    var front, e := events[..n], events[n];
    AnonymizedOfOneMore(events);
    assert GoodEvents(front);
    if k < n {
      FieldsOfEvents(table, group, front, k);
    } else {
      FieldsOfOtherEvents(table, group, front, e.id);
    }
    GoodEventHasID(e);
    WithFieldsOneMore(table, group, AnonymizedOf(front), AnonymizedField(e.id, AnonymizedPaths(e.fields)));
    WithFieldMeans(WithFields(table, group, AnonymizedOf(front)), group, e, events[k].id);
  }

  lemma WithFieldMeans(table: FieldTable, group: string, e: EventDefinition, id: string)
    requires e.id != ""
    ensures var paths := AnonymizedPaths(e.fields);
            && FieldsAt(WithField(table, group, AnonymizedField(e.id, paths)), group, id) ==
               (if id == e.id && paths != [] then HashedFields(e) else FieldsAt(table, group, id))
            && (paths == [] ==> HashedFields(e) == {})
  {
    hide AnonymizedPaths;
  }

  lemma AnonymizedOfOneMore(events: seq<EventDefinition>)
    requires events != []
    ensures var e := events[|events| - 1];
            var before, paths := AnonymizedOf(events[..|events| - 1]), AnonymizedPaths(e.fields);
            AnonymizedOf(events) == if paths != [] then before + [AnonymizedField(e.id, paths)] else before
  {
    hide AnonymizedPaths;
  }

  lemma GoodEventHasID(e: EventDefinition)
    requires GoodEvent(e)
    ensures e.id != ""
  {
  }

  lemma WithFieldsOneMore(table: FieldTable, group: string, afs: seq<AnonymizedField>, af: AnonymizedField)
    ensures WithFields(table, group, afs + [af]) == WithField(WithFields(table, group, afs), group, af)
  {
    assert (afs + [af])[..|afs|] == afs;
  }

  lemma WithFieldOfOther(table: FieldTable, group: string, af: AnonymizedField, id: string)
    requires af.event != id
    ensures FieldsAt(WithField(table, group, af), group, id) == FieldsAt(table, group, id)
  {
  }

  lemma NoFieldsAdded(table: FieldTable, group: string)
    ensures WithFields(table, group, AnonymizedOf([])) == table
  {
  }

  lemma {:induction false} FieldsOfOtherEvents(
    table: FieldTable, group: string, events: seq<EventDefinition>, id: string)
    requires forall i | 0 <= i < |events| :: events[i].id != id
    ensures FieldsAt(WithFields(table, group, AnonymizedOf(events)), group, id) == FieldsAt(table, group, id)
  {
    hide AnonymizedPaths, AnonymizedOf, WithFields, WithField, FieldsAt;
    if events == [] {
      NoFieldsAdded(table, group);
    } else {
      var front, e := events[..|events| - 1], events[|events| - 1];
      var af := AnonymizedField(e.id, AnonymizedPaths(e.fields));
      FieldsOfOtherEvents(table, group, front, id);
      AnonymizedOfOneMore(events);
      WithFieldsOneMore(table, group, AnonymizedOf(front), af);
      WithFieldOfOther(WithFields(table, group, AnonymizedOf(front)), group, af, id);
    }
  }

  lemma OtherGroupsAreKept(
    table: FieldTable, group: string, afs: seq<AnonymizedField>, other: string, id: string)
    requires other != group
    ensures (other, id) in WithFields(table, group, afs) <==> (other, id) in table
    ensures FieldsAt(WithFields(table, group, afs), other, id) == FieldsAt(table, other, id)
  {
    OthersAreKept(table, group, afs, other, id);
  }

  lemma {:induction false} NoEntryForOthers(groups: seq<GroupSchema>, other: string, id: string)
    requires forall i | 0 <= i < |groups| :: groups[i].id != other
    ensures (other, id) !in TableOf(groups)
  {
    if groups != [] {
      var g := groups[|groups| - 1];
      NoEntryForOthers(groups[..|groups| - 1], other, id);
      OtherGroupsAreKept(TableOf(groups[..|groups| - 1]), g.id, g.anonymizedFields, other, id);
    }
  }

  /** The schemas of the declared groups, one by one. */
  ghost predicate AreFallbackGroups(groups: seq<GroupDefinition>, schemas: seq<GroupSchema>) {
    && |groups| == |schemas|
    && (forall i | 0 <= i < |groups| ::
          schemas[i].id == groups[i].id && schemas[i].anonymizedFields == AnonymizedOf(groups[i].events))
    && (forall i, j | 0 <= i < j < |groups| :: groups[i].id != groups[j].id)
  }

  lemma {:induction false} FieldsOfGroups(groups: seq<GroupDefinition>, schemas: seq<GroupSchema>, i: nat, k: nat)
    requires AreFallbackGroups(groups, schemas)
    requires i < |groups| && GoodEvents(groups[i].events) && k < |groups[i].events|
    ensures FieldsAt(TableOf(schemas), groups[i].id, groups[i].events[k].id) == HashedFields(groups[i].events[k])
  {
    hide AnonymizedOf, GoodEvents, HashedFields, WithFields;
    var n := |groups| - 1;
    var before := TableOf(schemas[..n]);
    if i < n {
      FieldsOfGroups(groups[..n], schemas[..n], i, k);
      OtherGroupsAreKept(before, groups[n].id, schemas[n].anonymizedFields, groups[i].id, groups[i].events[k].id);
    } else {
      NoEntryForOthers(schemas[..n], groups[n].id, groups[n].events[k].id);
      FieldsOfEvents(before, groups[n].id, groups[n].events, k);
    }
  }

  lemma FallbackGroupsOf(d: Definition, s: Scheme)
    requires WellFormed(d) && IsFallback(d, s)
    ensures AreFallbackGroups(d.groups, s.groups)
  {
    hide GoodGroup, IsEventData, AnonymizedOf;
    forall i | 0 <= i < |d.groups|
      ensures s.groups[i].id == d.groups[i].id && s.groups[i].anonymizedFields == AnonymizedOf(d.groups[i].events)
    {
      assert IsFallbackGroup(d.groups[i], s.groups[i]);
    }
  }

  /** For an event ID that the group does not declare there is nothing to hash. */
  lemma {:induction false} NothingForOtherEvents(
    groups: seq<GroupDefinition>, schemas: seq<GroupSchema>, i: nat, id: string)
    requires AreFallbackGroups(groups, schemas) && i < |groups|
    requires forall k | 0 <= k < |groups[i].events| :: groups[i].events[k].id != id
    ensures FieldsAt(TableOf(schemas), groups[i].id, id) == {}
  {
    hide AnonymizedOf, WithFields;
    var n := |groups| - 1;
    var before := TableOf(schemas[..n]);
    if i < n {
      NothingForOtherEvents(groups[..n], schemas[..n], i, id);
      OtherGroupsAreKept(before, groups[n].id, schemas[n].anonymizedFields, groups[i].id, id);
    } else {
      NoEntryForOthers(schemas[..n], groups[n].id, id);
      FieldsOfOtherEvents(before, groups[n].id, groups[n].events, id);
    }
  }

  /** The group declares an event with exactly this ID, and anonymizes the path in it. */
  predicate HashesAt(g: GroupDefinition, eventID: string, path: string) {
    exists k :: 0 <= k < |g.events| && g.events[k].id == eventID && Anonymizes(g.events[k].fields, path)
  }

  lemma OnlyEvent(events: seq<EventDefinition>, j: nat, k: nat)
    requires GoodEvents(events) && j < |events| && k < |events| && events[j].id == events[k].id
    ensures j == k
  {
    hide GoodEvent;
  }

  /** Whatever ID an event of a declared group is tracked with, the anonymizer of the fallback hashes exactly the fields
      that the definition anonymizes in the event with that very ID; without such an event it hashes none. */
  lemma FallbackHashesDeclaredFields(d: Definition, s: Scheme, salt: string, i: nat, eventID: string, path: string)
    requires WellFormed(d) && IsFallback(d, s) && i < |d.groups|
    ensures path in FieldsFor(AnonymizerOf(s, salt), d.groups[i].id, eventID) <==> HashesAt(d.groups[i], eventID, path)
  {
    var g := d.groups[i];
    assert GoodGroup(g);
    FallbackGroupsOf(d, s);
    hide TableOf, AnonymizedPaths, Anonymizes, IsFallback, WellFormed, AreFallbackGroups, GoodEvents;
    if k: nat :| k < |g.events| && g.events[k].id == eventID {
      FieldsOfGroups(d.groups, s.groups, i, k);
      AnonymizedPathsMeaning(g.events[k].fields, path);
      forall j: nat | j < |g.events| && g.events[j].id == eventID ensures j == k {
        OnlyEvent(g.events, j, k);
      }
    } else {
      NothingForOtherEvents(d.groups, s.groups, i, eventID);
    }
  }

  // ---------- Hashed values survive ----------

  /** Position n of the chain holds a broken rule, and no rule before it accepts v. */
  predicate IsBrokenAt(en: Engine, chain: seq<Rule>, v: string, n: nat) {
    && n < |chain| && chain[n] == IncorrectStub
    && forall j | 0 <= j < n :: ValidateRule(en, chain[j], v) != Accepted
  }

  /** An incorrect rule decides exactly when a broken rule comes before every accepting one. */
  lemma BrokenMeaning(en: Engine, chain: seq<Rule>, v: string)
    requires EnumRule({}) !in chain
    ensures (exists n: nat :: Decides(en, chain, v, n, IncorrectRule)) <==> IsBroken(en, chain, v)
  {
    hide Atoi;
    if n: nat :| Decides(en, chain, v, n, IncorrectRule) {
      assert chain[n] in chain;
      assert IsBrokenAt(en, chain, v, n);
    }
    if n: nat :| n < |chain| && IsBrokenAt(en, chain, v, n) {
      var m := FirstBroken(en, chain, v, n);
      assert Decides(en, chain, v, m, IncorrectRule);
    }
  }

  lemma {:induction false} FirstBroken(en: Engine, chain: seq<Rule>, v: string, n: nat) returns (m: nat)
    requires EnumRule({}) !in chain && IsBrokenAt(en, chain, v, n)
    ensures Decides(en, chain, v, m, IncorrectRule)
  {
    hide Atoi;
    if j: nat :| j < n && IsFinal(ValidateRule(en, chain[j], v)) {
      assert chain[j] in chain;
      m := FirstBroken(en, chain, v, j);
    } else {
      m := n;
    }
  }

  lemma BracedChainIsParsed(en: Engine, d: Definition, g: GroupDefinition, path: string)
    ensures EnumRule({}) !in BracedChain(en, d, g, path)
  {
    var texts, t := Wrapped(DeclaredRules(g.events, path)), DefinitionTables(en, d);
    hide ParseRule, DeclaredRules, Wrapped, DefinitionTables;
    forall i | 0 <= i < |texts| ensures ParseAll(en, texts, t)[i] != EnumRule({}) {
      ParsedRuleHasValues(en, texts[i], t);
    }
  }

  /** A field that the definition anonymizes in some event of the group, and a non-blank scalar tracked in it with any
      event ID. The value reaches the validator as its hash if and only if the event with that very ID is declared and
      anonymizes the field; else it reaches it as it is, and is kept exactly if the field's chain accepts it. The
      validator keeps a hash if and only if no broken rule stands in the chain before a rule that accepts the
      hash, and otherwise puts the incorrect-rule sentinel in its place. The escaper never changes the hash. */
  lemma HashSurvives(
    en: Engine, printer: Printer, sha: Sha256, salt: string,
    d: Definition, s: Scheme, i: nat, eventID: string, path: string, raw: Scalar)
    requires WellFormed(d) && IsFallback(d, s) && i < |d.groups|
    requires path in AnonymizedFieldsOf(d.groups[i].events) && TrimSpace(ScalarText(raw)) != ""
    ensures var g := d.groups[i];
            var hash := Anonymize(sha, salt, ScalarText(raw));
            var prepared := Anonymized(sha, salt, path, raw, FieldsFor(AnonymizerOf(s, salt), g.id, eventID));
            var cg := FindGroup(Compile(en, s), g.id);
            && prepared == (if HashesAt(g, eventID, path) then Str(hash) else raw)
            && IsHash(hash)
            && EscapeIDOrValue(hash) == hash
            && cg.Some? && path in cg.value.eventDataRules
            && IsCheckedBy(en, printer, BracedChain(en, d, g, path), prepared,
                           CheckedValue(en, printer, cg.value.eventDataRules[path], prepared))
            && CheckedValue(en, printer, cg.value.eventDataRules[path], Str(hash)) ==
               if IsBroken(en, BracedChain(en, d, g, path), hash) then Str(INCORRECT) else Str(hash)
  {
    var g := d.groups[i];
    var hash := Anonymize(sha, salt, ScalarText(raw));
    AnonymizedIsHash(sha, salt, ScalarText(raw));
    FallbackHashesDeclaredFields(d, s, salt, i, eventID, path);
    AnonymizedIsDeclared(g.events, path);
    CheckedHash(en, printer, d, s, i, path, hash);
    hide CheckedValue, WellFormed, IsFallback, FieldsFor, AnonymizerOf, Compile, FindGroup, BracedChain, IsBroken;
    hide IsCheckedBy, HashesAt, AnonymizedFieldsOf, DeclaredPaths, BracesAreHarmless, DeclaredChain, IsHash;
    var prepared := Anonymized(sha, salt, path, raw, FieldsFor(AnonymizerOf(s, salt), g.id, eventID));
    ValueKeptIffAccepted(en, printer, d, s, i, path, prepared);
  }

  /** A broken rule comes before every rule that accepts v. */
  predicate IsBroken(en: Engine, chain: seq<Rule>, v: string) {
    exists n: nat :: n < |chain| && IsBrokenAt(en, chain, v, n)
  }

  lemma CheckedHash(en: Engine, printer: Printer, d: Definition, s: Scheme, i: nat, path: string, hash: string)
    requires WellFormed(d) && IsFallback(d, s) && i < |d.groups| && path in DeclaredPaths(d.groups[i].events)
    requires path in AnonymizedFieldsOf(d.groups[i].events) && IsHash(hash) && EscapeIDOrValue(hash) == hash
    ensures var cg := FindGroup(Compile(en, s), d.groups[i].id);
            && cg.Some? && path in cg.value.eventDataRules
            && CheckedValue(en, printer, cg.value.eventDataRules[path], Str(hash)) ==
               if IsBroken(en, BracedChain(en, d, d.groups[i], path), hash) then Str(INCORRECT) else Str(hash)
  {
    hide IsHash, WellFormed, IsFallback, DeclaredPaths, AnonymizedFieldsOf, EscapeIDOrValue, IsCheckedBy;
    hide CheckedValue, Compile, FindGroup, BracedChain, DeclaredChain, IsBroken, BracesAreHarmless;
    ValueKeptIffAccepted(en, printer, d, s, i, path, Str(hash));
    var rules := FindGroup(Compile(en, s), d.groups[i].id).value.eventDataRules[path];
    HashIsChecked(en, printer, d, d.groups[i], path, hash, CheckedValue(en, printer, rules, Str(hash)));
  }

  lemma HashIsChecked(
    en: Engine, printer: Printer, d: Definition, g: GroupDefinition, path: string, hash: string, out: Value)
    requires path in AnonymizedFieldsOf(g.events) && IsHash(hash) && EscapeIDOrValue(hash) == hash
    requires IsCheckedBy(en, printer, BracedChain(en, d, g, path), Str(hash), out)
    ensures out == if IsBroken(en, BracedChain(en, d, g, path), hash) then Str(INCORRECT) else Str(hash)
  {
    HashIsNotReserved(hash);
    HashIsNoSentinel(hash);
    ChainAcceptsHash(en, d, g, path, hash);
    BracedChainIsParsed(en, d, g, path);
    BrokenMeaning(en, BracedChain(en, d, g, path), hash);
    hide IsHash, AnonymizedFieldsOf, EscapeIDOrValue, Reserved, BracedChain, IsBroken, Decides, INCORRECT, UNMATCHED;
  }

  lemma AnonymizedIsDeclared(events: seq<EventDefinition>, path: string)
    requires path in AnonymizedFieldsOf(events)
    ensures path in DeclaredPaths(events)
  {
  }

  lemma HashIsNotReserved(h: string)
    requires IsHash(h)
    ensures !Reserved(h)
  {
    assert h[64..][0] == '#';
    assert !IsPlainName(h);
    if Reserved(h) {
      ReservedIsPlain(h);
    }
  }

  lemma HashIsNoSentinel(h: string)
    requires IsHash(h)
    ensures h != INCORRECT && h != UNMATCHED
  {
  }

  /** With the hash rule at its end, a chain accepts a hash unless an incorrect rule comes first. */
  lemma ChainAcceptsHash(en: Engine, d: Definition, g: GroupDefinition, path: string, hash: string)
    requires path in AnonymizedFieldsOf(g.events) && IsHash(hash)
    ensures var chain := BracedChain(en, d, g, path);
            (exists n: nat :: Decides(en, chain, hash, n, Accepted)) <==>
            !exists n: nat :: Decides(en, chain, hash, n, IncorrectRule)
  {
    var declared := ParseAll(en, Wrapped(DeclaredRules(g.events, path)), DefinitionTables(en, d));
    var chain := BracedChain(en, d, g, path);
    VerdictMeaning(en, chain, hash);
    VerdictConcat(en, declared, [RegexpRule(HASH_PATTERN)], hash);
    VerdictOfOne(en, RegexpRule(HASH_PATTERN), hash);
    hide Verdict, Decides, ParseAll;
    assert IsFinal(Accepted) && IsFinal(IncorrectRule);
  }

  lemma UnknownIsNoRule(en: Engine, t: Tables)
    ensures ParseRule(en, WrapBrace("unknown"), t) == IncorrectStub
  {
    BracedExpression(en, "unknown", t);
    NoPrefixBody(en, "unknown", t);
    hide ParseRule, ParseBody;
  }

  /** It does happen: in this well-formed definition the only rule of an anonymized field is no rule, and the
      validator of its fallback replaces every hash. */
  lemma BrokenRuleHidesHash(en: Engine, printer: Printer, sha: Sha256, salt: string, value: string)
    returns (d: Definition)
    requires TrimSpace(value) != ""
    ensures WellFormed(d) && |d.groups| == 1 && FlatEvents(d.groups[0].events)
    ensures "field" in AnonymizedFieldsOf(d.groups[0].events)
    ensures forall s | IsFallback(d, s) ::
              IsCheckedTo(en, printer, d, s, "field", Str(Anonymize(sha, salt, value)), Str(INCORRECT))
  {
    var field := FieldDefinition("field", ["unknown"], "", true, "");
    d := OneFieldDefinition(field);
    OneFieldWellFormed(field);
    OneFieldPaths(field);
    OneRuleChains(en, field, "unknown");
    UnknownIsNoRule(en, DefinitionTables(en, d));
    AnonymizedIsHash(sha, salt, value);
    hide WellFormed, IsFallback, FlatEvents, DeclaredPaths, AnonymizedFieldsOf, DeclaredRules, ParseBody, BracedChain;
    hide DeclaredChain, OneFieldDefinition, Anonymize, IsHash, EscapeIDOrValue, ParseRule, DefinitionTables;
    hide CheckedValue;
    var hash := Anonymize(sha, salt, value);
    assert IsBrokenAt(en, BracedChain(en, d, d.groups[0], "field"), hash, 0);
    hide IsBrokenAt;
    assert IsBroken(en, BracedChain(en, d, d.groups[0], "field"), hash);
    hide IsBroken;
    forall s | IsFallback(d, s) ensures IsCheckedTo(en, printer, d, s, "field", Str(hash), Str(INCORRECT)) {
      CheckedHash(en, printer, d, s, 0, "field", hash);
    }
  }
}
