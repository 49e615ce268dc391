/** Declaring groups, events and fields once, and generating two outputs from the declaration:
    the registration metadata and the validation scheme (definition.go). */
module Definition {
  import opened Basics
  import opened GoStrings
  import opened GoNumbers
  import opened Versions
  import opened Scheme
  import opened Rules

  datatype FieldDefinition = FieldDefinition(
    path: string, rules: seq<string>, dataType: string, anonymized: bool, description: string)

  datatype EventDefinition = EventDefinition(id: string, description: string, fields: seq<FieldDefinition>)

  datatype GroupDefinition = GroupDefinition(
    id: string, version: Int64, groupType: string, description: string, events: seq<EventDefinition>)

  datatype Definition = Definition(version: string, rules: Option<SchemeRules>, groups: seq<GroupDefinition>)

  const PRIMITIVE := "PRIMITIVE"
  const ARRAY := "ARRAY"

  // ---------- Well-formedness ----------

  predicate IsBlank(s: string) {
    TrimSpace(s) == ""
  }

  predicate GoodField(f: FieldDefinition) {
    && f.path != "" && f.rules != []
    && "" !in Split(f.path, '.')
    && f.dataType in {"", PRIMITIVE, ARRAY}
  }

  /** p names an object that q lies in. */
  predicate Encloses(p: string, q: string) {
    Split(p, '.') < Split(q, '.')
  }

  /** In terms of the texts: q is p, a dot, and something more or nothing. */
  lemma EnclosesMeansDotted(p: string, q: string)
    ensures Encloses(p, q) <==> p + "." <= q
  {
    var a, b := Split(p, '.'), Split(q, '.');
    JoinSplit(p, '.');
    JoinSplit(q, '.');
    hide Split, Join;
    if a < b {
      assert b == a + b[|a|..];
      JoinConcat(a, b[|a|..], '.');
    }
    if p + "." <= q {
      var rest := q[|p| + 1..];
      assert q == p + "." + rest;
      SplitConcat(p, rest, '.');
    }
  }

  predicate GoodFields(fields: seq<FieldDefinition>) {
    && (forall i | 0 <= i < |fields| :: GoodField(fields[i]))
    && (forall i, j | 0 <= i < j < |fields| :: fields[i].path != fields[j].path)
    && (forall i, j | 0 <= i < |fields| && 0 <= j < |fields| :: !Encloses(fields[i].path, fields[j].path))
  }

  predicate GoodEvent(e: EventDefinition) {
    e.id != "" && '|' !in e.id && !IsBlank(e.description) && GoodFields(e.fields)
  }

  predicate GoodEvents(events: seq<EventDefinition>) {
    && (forall i | 0 <= i < |events| :: GoodEvent(events[i]))
    && (forall i, j | 0 <= i < j < |events| :: events[i].id != events[j].id)
  }

  predicate GoodGroup(g: GroupDefinition) {
    && g.id != "" && 1 <= g.version < MAX_INT && !IsBlank(g.description)
    && g.groupType in {"", COUNTER, STATE}
    && GoodEvents(g.events)
  }

  predicate GoodGroups(groups: seq<GroupDefinition>) {
    && (forall i | 0 <= i < |groups| :: GoodGroup(groups[i]))
    && (forall i, j | 0 <= i < j < |groups| :: groups[i].id != groups[j].id)
  }

  predicate WellFormed(d: Definition) {
    && (d.rules.Some? ==> d.rules.value.eventID == [] && d.rules.value.eventData == map[])
    && GoodGroups(d.groups)
  }

  /** What a well-formed definition has: for each group, event and field, and for two different ones of a kind. */
  lemma WellFormedMeaning(d: Definition, i: nat, k: nat, j: nat, i': nat, k': nat, j': nat)
    requires WellFormed(d)
    requires i < |d.groups| && k < |d.groups[i].events| && j < |d.groups[i].events[k].fields|
    requires i' < |d.groups| && k' < |d.groups[i].events| && j' < |d.groups[i].events[k].fields|
    ensures d.rules.Some? ==> d.rules.value.eventID == [] && d.rules.value.eventData == map[]
    ensures var g, e, f := d.groups[i], d.groups[i].events[k], d.groups[i].events[k].fields[j];
            && g.id != "" && 1 <= g.version < 0x7FFF_FFFF_FFFF_FFFF && TrimSpace(g.description) != ""
            && (g.groupType == "" || g.groupType == "counter" || g.groupType == "state")
            && e.id != "" && '|' !in e.id && TrimSpace(e.description) != ""
            && f.path != "" && f.rules != [] && (forall part | part in Split(f.path, '.') :: part != "")
            && (f.dataType == "" || f.dataType == "PRIMITIVE" || f.dataType == "ARRAY")
            && (i' != i ==> d.groups[i'].id != g.id)
            && (k' != k ==> g.events[k'].id != e.id)
            && (j' != j ==> e.fields[j'].path != f.path)
            && !(f.path + "." <= e.fields[j'].path)
  {
    hide Split, TrimSpace, Encloses;
    var e := d.groups[i].events[k];
    assert GoodGroup(d.groups[i]);
    assert GoodEvent(e);
    assert GoodField(e.fields[j]);
    EnclosesMeansDotted(e.fields[j].path, e.fields[j'].path);
  }

  predicate PrefixIsIn(path: string, i: nat, paths: set<string>) {
    i < |Split(path, '.')| && Join(Split(path, '.')[..i], '.') in paths
  }

  /** Looking up every shorter beginning of a path finds out whether another path encloses it. */
  lemma PrefixLookup(path: string, paths: set<string>)
    ensures (exists i :: 1 <= i && PrefixIsIn(path, i, paths)) <==> exists p :: p in paths && Encloses(p, path)
  {
    var parts := Split(path, '.');
    SplitParts(path, '.');
    if i :| 1 <= i && PrefixIsIn(path, i, paths) {
      SplitJoin(parts[..i], '.');
      assert Encloses(Join(parts[..i], '.'), path);
    }
    if p :| p in paths && Encloses(p, path) {
      JoinSplit(p, '.');
      assert Split(p, '.') == parts[..|Split(p, '.')|];
      assert PrefixIsIn(path, |Split(p, '.')|, paths);
    }
  }

  method ValidateFields(fields: seq<FieldDefinition>) returns (ok: bool)
    ensures ok <==> GoodFields(fields)
  {
    hide Encloses, GoodField;
    var paths: set<string> := {};
    for i := 0 to |fields|
      invariant paths == set j | 0 <= j < i :: fields[j].path
      invariant forall j | 0 <= j < i :: GoodField(fields[j])
      invariant forall j, k | 0 <= j < k < i :: fields[j].path != fields[k].path
    {
      var good := ValidateField(fields[i], paths);
      if !good {
        return false;
      }
      paths := paths + {fields[i].path};
    }
    var todo := paths;
    while todo != {}
      invariant todo <= paths
      invariant forall p, q | p in paths && q in paths - todo :: !Encloses(p, q)
    {
      var path :| path in todo;
      var overlap := Overlaps(path, paths);
      if overlap {
        return false;
      }
      todo := todo - {path};
    }
    return true;
  }

  /** A field that is well-formed, and whose path is new. */
  method ValidateField(f: FieldDefinition, seen: set<string>) returns (ok: bool)
    ensures ok <==> GoodField(f) && f.path !in seen
  {
    if f.path == "" || f.path in seen || |f.rules| == 0 {
      return false;
    }
    var parts := Split(f.path, '.');
    for k := 0 to |parts|
      invariant "" !in parts[..k]
    {
      if parts[k] == "" {
        return false;
      }
    }
    assert parts[..|parts|] == parts;
    return f.dataType == "" || f.dataType == PRIMITIVE || f.dataType == ARRAY;
  }

  method Overlaps(path: string, paths: set<string>) returns (found: bool)
    ensures found <==> exists p :: p in paths && Encloses(p, path)
  {
    hide Encloses;
    PrefixLookup(path, paths);
    var parts := Split(path, '.');
    for i := 1 to |parts|
      invariant forall k | 1 <= k < i :: !PrefixIsIn(path, k, paths)
    {
      if Join(parts[..i], '.') in paths {
        assert PrefixIsIn(path, i, paths);
        return true;
      }
    }
    return false;
  }

  method ValidateEvents(events: seq<EventDefinition>) returns (ok: bool)
    ensures ok <==> GoodEvents(events)
  {
    hide GoodFields, IsBlank;
    var seen: set<string> := {};
    for i := 0 to |events|
      invariant seen == set j | 0 <= j < i :: events[j].id
      invariant forall j | 0 <= j < i :: GoodEvent(events[j])
      invariant forall j, k | 0 <= j < k < i :: events[j].id != events[k].id
    {
      var e := events[i];
      if e.id == "" || e.id in seen || '|' in e.id || IsBlank(e.description) {
        return false;
      }
      seen := seen + {e.id};
      var good := ValidateFields(e.fields);
      if !good {
        return false;
      }
    }
    return true;
  }

  method ValidateGroup(g: GroupDefinition, seen: set<string>) returns (ok: bool)
    ensures ok <==> GoodGroup(g) && g.id !in seen
  {
    hide GoodEvents, IsBlank;
    if g.id == "" || g.id in seen {
      return false;
    }
    if g.version < 1 || g.version == MAX_INT || IsBlank(g.description) {
      return false;
    }
    if g.groupType != "" && g.groupType != COUNTER && g.groupType != STATE {
      return false;
    }
    ok := ValidateEvents(g.events);
  }

  method ValidateGroups(groups: seq<GroupDefinition>) returns (ok: bool)
    ensures ok <==> GoodGroups(groups)
  {
    hide GoodGroup;
    var seen: set<string> := {};
    for i := 0 to |groups|
      invariant seen == set j | 0 <= j < i :: groups[j].id
      invariant forall j | 0 <= j < i :: GoodGroup(groups[j])
      invariant forall j, k | 0 <= j < k < i :: groups[j].id != groups[k].id
    {
      var good := ValidateGroup(groups[i], seen);
      if !good {
        return false;
      }
      seen := seen + {groups[i].id};
    }
    return true;
  }

  /** Validation succeeds exactly on well-formed definitions. */
  method Validate(d: Option<Definition>) returns (ok: bool)
    ensures ok <==> d.Some? && WellFormed(d.value)
  {
    hide GoodGroups;
    if d.None? {
      return false;
    }
    var rules := d.value.rules;
    if rules.Some? && (|rules.value.eventID| != 0 || |rules.value.eventData| != 0) {
      return false;
    }
    ok := ValidateGroups(d.value.groups);
  }

  // ---------- Registration metadata ----------

  const HASH_RULE := "{regexp#hash}"

  datatype ESField = ESField(
    path: string, value: seq<string>, dataType: string, shouldBeAnonymized: bool, description: string)

  datatype ESEvent = ESEvent(event: string, description: string, fields: seq<ESField>)

  datatype ESGroup = ESGroup(
    id: string, groupType: string, version: Int64, description: string, recorder: string, events: seq<ESEvent>)

  datatype ESRecorderField = ESRecorderField(path: string, required: bool, values: seq<string>)

  datatype ESRecorder = ESRecorder(
    recorderID: string, recorderVersion: Int64,
    ids: seq<ESRecorderField>, clientData: seq<ESRecorderField>, systemData: seq<ESRecorderField>)

  datatype EventsScheme = EventsScheme(buildNumber: string, groups: seq<ESGroup>, recorders: seq<ESRecorder>)

  /** The recorder sends one hashed ID, that of the device, and no client or system data. */
  function RecorderScheme(id: string, version: Int64): seq<ESRecorder> {
    [ESRecorder(id, version, [ESRecorderField("device", true, [HASH_RULE])], [], [])]
  }

  function OrDefault(s: string, default_: string): string {
    if s == "" then default_ else s
  }

  function ESFieldOf(f: FieldDefinition): ESField {
    ESField(f.path, if f.anonymized then [HASH_RULE] else Wrapped(f.rules), OrDefault(f.dataType, PRIMITIVE),
            f.anonymized, f.description)
  }

  function ESEventOf(e: EventDefinition): ESEvent {
    ESEvent(e.id, e.description, seq(|e.fields|, i requires 0 <= i < |e.fields| => ESFieldOf(e.fields[i])))
  }

  function ESGroupOf(g: GroupDefinition, recorder: string): ESGroup {
    ESGroup(g.id, OrDefault(g.groupType, COUNTER), g.version, g.description, recorder,
            seq(|g.events|, i requires 0 <= i < |g.events| => ESEventOf(g.events[i])))
  }

  /** What the registration metadata says of a group, and of a field of one of its events: the declared names, version,
      types and descriptions, with "counter" and "PRIMITIVE" where no type is declared; the declared rules in braces,
      or, for an anonymized field, the reference to the hash rule. */
  lemma RegistrationMeaning(g: GroupDefinition, recorder: string, k: nat, j: nat)
    requires k < |g.events| && j < |g.events[k].fields|
    ensures var es, f := ESGroupOf(g, recorder), g.events[k].fields[j];
            && es.id == g.id && es.version == g.version && es.description == g.description && es.recorder == recorder
            && es.groupType == (if g.groupType != "" then g.groupType else "counter")
            && |es.events| == |g.events| && es.events[k].event == g.events[k].id
            && es.events[k].description == g.events[k].description && |es.events[k].fields| == |g.events[k].fields|
            && var r := es.events[k].fields[j];
               && r.path == f.path && r.description == f.description && r.shouldBeAnonymized == f.anonymized
               && r.dataType == (if f.dataType != "" then f.dataType else "PRIMITIVE")
               && (f.anonymized ==> r.value == ["{regexp#hash}"])
               && (!f.anonymized ==>
                     && |r.value| == |f.rules|
                     && forall n | 0 <= n < |f.rules| ::
                          r.value[n] == if f.rules[n] != "" && f.rules[n][0] == '{' then f.rules[n]
                                        else "{" + f.rules[n] + "}")
  {
  }

  method BuildFields(fields: seq<FieldDefinition>) returns (out: seq<ESField>)
    ensures |out| == |fields| && forall i | 0 <= i < |fields| :: out[i] == ESFieldOf(fields[i])
  {
    out := [];
    for i := 0 to |fields|
      invariant |out| == i && forall j | 0 <= j < i :: out[j] == ESFieldOf(fields[j])
    {
      var f := fields[i];
      var value := WrapBraces(f.rules);
      var fd := ESField(f.path, value, f.dataType, f.anonymized, f.description);
      if fd.dataType == "" {
        fd := fd.(dataType := PRIMITIVE);
      }
      if f.anonymized {
        fd := fd.(value := [HASH_RULE]);
      }
      out := out + [fd];
    }
  }

  method BuildEventsScheme(d: Option<Definition>, recorderID: string, recorderVersion: Int64, buildNumber: string)
    returns (r: Option<EventsScheme>)
    ensures r.Some? <==> d.Some? && WellFormed(d.value)
    ensures r.Some? ==>
              && r.value.buildNumber == buildNumber
              && r.value.recorders == RecorderScheme(recorderID, recorderVersion)
              && |r.value.groups| == |d.value.groups|
              && forall i | 0 <= i < |d.value.groups| :: r.value.groups[i] == ESGroupOf(d.value.groups[i], recorderID)
  {
    hide ESFieldOf, WellFormed;
    var ok := Validate(d);
    if !ok {
      return None;
    }
    var out: seq<ESGroup> := [];
    for i := 0 to |d.value.groups|
      invariant |out| == i && forall j | 0 <= j < i :: out[j] == ESGroupOf(d.value.groups[j], recorderID)
    {
      var g := d.value.groups[i];
      var events: seq<ESEvent> := [];
      for k := 0 to |g.events|
        invariant |events| == k && forall j | 0 <= j < k :: events[j] == ESEventOf(g.events[j])
      {
        var fields := BuildFields(g.events[k].fields);
        assert fields == ESEventOf(g.events[k]).fields;
        events := events + [ESEvent(g.events[k].id, g.events[k].description, fields)];
      }
      var gd := ESGroup(g.id, g.groupType, g.version, g.description, recorderID, events);
      if gd.groupType == "" {
        gd := gd.(groupType := COUNTER);
      }
      assert events == ESGroupOf(g, recorderID).events;
      out := out + [gd];
    }
    r := Some(EventsScheme(buildNumber, out, RecorderScheme(recorderID, recorderVersion)));
  }

  // ---------- Validation scheme ----------

  /** The rule texts that the fields named path declare, in order and as declared. */
  function FieldRules(fields: seq<FieldDefinition>, path: string): seq<string> {
    if fields == [] then []
    else
      var f := fields[|fields| - 1];
      FieldRules(fields[..|fields| - 1], path) + if f.path == path then f.rules else []
  }

  /** The same over all events of a group. */
  function DeclaredRules(events: seq<EventDefinition>, path: string): seq<string> {
    if events == [] then []
    else DeclaredRules(events[..|events| - 1], path) + FieldRules(events[|events| - 1].fields, path)
  }

  function DeclaredPaths(events: seq<EventDefinition>): set<string> {
    set e, f | e in events && f in e.fields :: f.path
  }

  function AnonymizedPaths(fields: seq<FieldDefinition>): seq<string> {
    if fields == [] then []
    else
      var f := fields[|fields| - 1];
      AnonymizedPaths(fields[..|fields| - 1]) + if f.anonymized then [f.path] else []
  }

  function AnonymizedOf(events: seq<EventDefinition>): seq<AnonymizedField> {
    if events == [] then []
    else
      var e := events[|events| - 1];
      var paths := AnonymizedPaths(e.fields);
      AnonymizedOf(events[..|events| - 1]) + if paths != [] then [AnonymizedField(e.id, paths)] else []
  }

  function EventIDRule(e: EventDefinition): string {
    "{" + EnumExpr([e.id]) + "}"
  }

  function EventIDRules(events: seq<EventDefinition>): seq<string> {
    seq(|events|, i requires 0 <= i < |events| => EventIDRule(events[i]))
  }

  /** m lists the texts under the path, the repeated ones once; without texts there is no entry. */
  predicate ListsOnce(m: map<string, seq<string>>, path: string, texts: seq<string>) {
    if texts == [] then path !in m else path in m && m[path] == Dedup(texts)
  }

  /** One list of rules in braces per declared path. */
  ghost predicate IsEventData(m: map<string, seq<string>>, events: seq<EventDefinition>) {
    forall path :: ListsOnce(m, path, Wrapped(DeclaredRules(events, path)))
  }

  /** Fields that the runtime validation supports. */
  predicate IsFlat(f: FieldDefinition) {
    f.dataType != ARRAY && '.' !in f.path
  }

  predicate FlatEvents(events: seq<EventDefinition>) {
    forall i, j | 0 <= i < |events| && 0 <= j < |events[i].fields| :: IsFlat(events[i].fields[j])
  }

  /** No field is an array or nested. */
  lemma FlatMeaning(events: seq<EventDefinition>)
    ensures FlatEvents(events) <==>
            forall i, j | 0 <= i < |events| && 0 <= j < |events[i].fields| ::
              events[i].fields[j].dataType != "ARRAY" && '.' !in events[i].fields[j].path
  {
  }

  function CloneRules(r: Option<SchemeRules>): Option<SchemeRules> {
    match r
    case None => None
    case Some(x) => Some(SchemeRules([], map[], x.enums, x.regexps, x.ranges))
  }

  /** What enum lists on the heap hold. */
  ghost function Contents(enums: map<string, array<string>>): map<string, seq<string>>
    reads enums.Values
  {
    map k | k in enums :: enums[k][..]
  }

  /** The fallback gets its own copy of every enum list, so changing a list of the one never shows in the other. */
  method CloneEnums(enums: map<string, array<string>>) returns (copies: map<string, array<string>>)
    ensures Contents(copies) == Contents(enums)
    ensures forall k | k in copies :: fresh(copies[k])
  {
    copies := map[];
    var todo := enums.Keys;
    while todo != {}
      invariant todo <= enums.Keys && copies.Keys == enums.Keys - todo
      invariant forall k | k in copies :: fresh(copies[k]) && copies[k][..] == enums[k][..]
    {
      var k :| k in todo;
      var list := enums[k];
      var copy := new string[list.Length](i requires 0 <= i < list.Length reads list => list[i]);
      copies := copies[k := copy];
      todo := todo - {k};
    }
  }

  /** From this version up to the next; the bound is a 64-bit sum. */
  function VersionRange(version: Int64): SchemeRange {
    SchemeRange(Itoa(version), Itoa(Wrap(version + 1)))
  }

  /** gs is the fallback's schema for the declared group g. */
  ghost predicate IsFallbackGroup(g: GroupDefinition, gs: GroupSchema) {
    && gs.id == g.id
    && gs.groupType == OrDefault(g.groupType, COUNTER)
    && gs.builds == []
    && gs.versions == [VersionRange(g.version)]
    && gs.rules.Some?
    && gs.rules.value.eventID == EventIDRules(g.events)
    && IsEventData(gs.rules.value.eventData, g.events)
    && gs.rules.value.enums == map[] && gs.rules.value.regexps == map[] && gs.rules.value.ranges == map[]
    && gs.anonymizedFields == AnonymizedOf(g.events)
  }

  ghost predicate IsFallback(d: Definition, s: Scheme) {
    && s.version == d.version
    && s.rules == CloneRules(d.rules)
    && |s.groups| == |d.groups|
    && forall i | 0 <= i < |d.groups| :: IsFallbackGroup(d.groups[i], s.groups[i])
  }

  /** old with the rules it does not have yet. */
  function Extended(old_: seq<string>, rules: seq<string>): seq<string> {
    if rules == [] then old_
    else
      var front, x := Extended(old_, rules[..|rules| - 1]), rules[|rules| - 1];
      if x in front then front else front + [x]
  }

  lemma {:induction false} DedupConcat(a: seq<string>, b: seq<string>)
    ensures Dedup(a + b) == Extended(Dedup(a), b)
  {
    if b == [] {
      assert a + b == a;
    } else {
      DedupConcat(a, b[..|b| - 1]);
      assert (a + b)[..|a + b| - 1] == a + b[..|b| - 1];
    }
  }

  function RulesAt(m: map<string, seq<string>>, path: string): seq<string> {
    if path in m then m[path] else []
  }

  method AddRules(m: map<string, seq<string>>, path: string, rules: seq<string>) returns (out: map<string, seq<string>>)
    ensures out == if rules == [] then m else m[path := Extended(RulesAt(m, path), rules)]
    ensures rules != [] ==> Extended(RulesAt(m, path), rules) != []
  {
    out := m;
    for i := 0 to |rules|
      invariant i == 0 ==> out == m
      invariant i > 0 ==> out == m[path := Extended(RulesAt(m, path), rules[..i])] && out[path] != []
    {
      assert rules[..i + 1][..i] == rules[..i];
      if rules[i] !in RulesAt(out, path) {
        out := out[path := RulesAt(out, path) + [rules[i]]];
      }
    }
    assert rules[..|rules|] == rules;
  }

  /** What was collected from whole events and then from some fields of the next. */
  ghost predicate Collected(m: map<string, seq<string>>, events: seq<EventDefinition>, fields: seq<FieldDefinition>) {
    forall path :: ListsOnce(m, path, Wrapped(DeclaredRules(events, path) + FieldRules(fields, path)))
  }

  lemma CollectField(m: map<string, seq<string>>, events: seq<EventDefinition>, fields: seq<FieldDefinition>,
                     f: FieldDefinition)
    requires Collected(m, events, fields) && f.rules != []
    ensures Collected(m[f.path := Extended(RulesAt(m, f.path), Wrapped(f.rules))], events, fields + [f])
  {
    hide DeclaredRules, FieldRules, Extended, Dedup, Wrapped;
    var out := m[f.path := Extended(RulesAt(m, f.path), Wrapped(f.rules))];
    forall path ensures ListsOnce(out, path, Wrapped(DeclaredRules(events, path) + FieldRules(fields + [f], path))) {
      var texts := DeclaredRules(events, path) + FieldRules(fields, path);
      assert ListsOnce(m, path, Wrapped(texts));
      FieldRulesOneMore(fields, f, path);
      if path == f.path {
        assert texts + f.rules == DeclaredRules(events, path) + FieldRules(fields + [f], path);
        WrappedConcat(texts, f.rules);
        DedupConcat(Wrapped(texts), Wrapped(f.rules));
        DedupOfNone();
        WrappedNotEmpty(f.rules);
      }
    }
  }

  lemma FieldRulesOneMore(fields: seq<FieldDefinition>, f: FieldDefinition, path: string)
    ensures FieldRules(fields + [f], path) ==
            if f.path == path then FieldRules(fields, path) + f.rules else FieldRules(fields, path)
  {
    assert (fields + [f])[..|fields|] == fields;
  }

  lemma WrappedNotEmpty(rules: seq<string>)
    ensures Wrapped(rules) == [] <==> rules == []
  {
  }

  lemma DedupOfNone()
    ensures Dedup([]) == []
  {
  }

  lemma CollectEvent(m: map<string, seq<string>>, events: seq<EventDefinition>, e: EventDefinition)
    requires Collected(m, events, e.fields)
    ensures Collected(m, events + [e], [])
  {
    assert (events + [e])[..|events|] == events;
    hide FieldRules, Wrapped;
    forall path ensures ListsOnce(m, path, Wrapped(DeclaredRules(events + [e], path) + FieldRules([], path))) {
      NoFieldRules(path);
      assert ListsOnce(m, path, Wrapped(DeclaredRules(events, path) + FieldRules(e.fields, path)));
      assert DeclaredRules(events + [e], path) + [] == DeclaredRules(events, path) + FieldRules(e.fields, path);
    }
  }

  lemma NoFieldRules(path: string)
    ensures FieldRules([], path) == []
  {
  }

  lemma CollectedAll(m: map<string, seq<string>>, events: seq<EventDefinition>)
    requires Collected(m, events, [])
    ensures IsEventData(m, events)
  {
    hide Wrapped;
    forall path ensures ListsOnce(m, path, Wrapped(DeclaredRules(events, path))) {
      assert ListsOnce(m, path, Wrapped(DeclaredRules(events, path) + FieldRules([], path)));
      assert DeclaredRules(events, path) + [] == DeclaredRules(events, path);
    }
  }

  method CollectFields(m: map<string, seq<string>>, fields: seq<FieldDefinition>, ghost events: seq<EventDefinition>)
    returns (flat: bool, out: map<string, seq<string>>, anonymized: seq<string>)
    requires Collected(m, events, []) && forall i | 0 <= i < |fields| :: fields[i].rules != []
    ensures flat <==> forall i | 0 <= i < |fields| :: IsFlat(fields[i])
    ensures flat ==> Collected(out, events, fields) && anonymized == AnonymizedPaths(fields)
  {
    hide Collected, Extended;
    out, anonymized := m, [];
    for i := 0 to |fields|
      invariant forall j | 0 <= j < i :: IsFlat(fields[j])
      invariant Collected(out, events, fields[..i])
      invariant anonymized == AnonymizedPaths(fields[..i])
    {
      var f := fields[i];
      if f.dataType == ARRAY || '.' in f.path {
        return false, out, anonymized;
      }
      var rules := WrapBraces(f.rules);
      CollectField(out, events, fields[..i], f);
      out := AddRules(out, f.path, rules);
      assert fields[..i] + [f] == fields[..i + 1];
      if f.anonymized {
        anonymized := anonymized + [f.path];
      }
    }
    assert fields[..|fields|] == fields;
    return true, out, anonymized;
  }

  /** The pieces of a group's schema that its first events give. */
  ghost predicate BuiltFrom(events: seq<EventDefinition>, ids: seq<string>, data: map<string, seq<string>>,
                            anonymized: seq<AnonymizedField>)
  {
    && FlatEvents(events) && ids == EventIDRules(events)
    && Collected(data, events, []) && anonymized == AnonymizedOf(events)
  }

  lemma BuildOneMore(events: seq<EventDefinition>, e: EventDefinition, ids: seq<string>,
                     anonymized: seq<AnonymizedField>, out: map<string, seq<string>>)
    requires ids == EventIDRules(events) && anonymized == AnonymizedOf(events) && FlatEvents(events)
    requires forall i | 0 <= i < |e.fields| :: IsFlat(e.fields[i])
    requires Collected(out, events, e.fields)
    ensures var paths := AnonymizedPaths(e.fields);
            BuiltFrom(events + [e], ids + [EventIDRule(e)], out,
                      if paths != [] then anonymized + [AnonymizedField(e.id, paths)] else anonymized)
  {
    hide Collected, EventIDRule, AnonymizedPaths;
    CollectEvent(out, events, e);
    assert (events + [e])[..|events|] == events;
  }

  method BuildGroup(g: GroupDefinition) returns (r: Option<GroupSchema>)
    requires GoodGroup(g)
    ensures r.Some? <==> FlatEvents(g.events)
    ensures r.Some? ==> IsFallbackGroup(g, r.value)
  {
    hide Collected, IsEventData, EventIDRule, AnonymizedPaths, Itoa, GoodEvent;
    var ids: seq<string> := [];
    var data: map<string, seq<string>> := map[];
    var anonymized: seq<AnonymizedField> := [];
    NothingCollected();
    for i := 0 to |g.events|
      invariant BuiltFrom(g.events[..i], ids, data, anonymized)
    {
      var e := g.events[i];
      GoodEventHasRules(e);
      var flat, out, paths := CollectFields(data, e.fields, g.events[..i]);
      if !flat {
        return None;
      }
      BuildOneMore(g.events[..i], e, ids, anonymized, out);
      assert g.events[..i] + [e] == g.events[..i + 1];
      ids := ids + [EventIDRule(e)];
      data := out;
      if |paths| != 0 {
        anonymized := anonymized + [AnonymizedField(e.id, paths)];
      }
    }
    assert g.events[..|g.events|] == g.events;
    CollectedAll(data, g.events);
    var versions := [SchemeRange(Itoa(g.version), Itoa(Wrap(g.version + 1)))];
    var rules := SchemeRules(ids, data, map[], map[], map[]);
    r := Some(GroupSchema(g.id, OrDefault(g.groupType, COUNTER), [], versions, Some(rules), anonymized));
  }

  lemma NothingCollected()
    ensures Collected(map[], [], [])
  {
  }

  lemma GoodEventHasRules(e: EventDefinition)
    requires GoodEvent(e)
    ensures forall i | 0 <= i < |e.fields| :: e.fields[i].rules != []
  {
    forall i | 0 <= i < |e.fields| ensures e.fields[i].rules != [] {
      assert GoodField(e.fields[i]);
    }
  }

  method BuildGroups(groups: seq<GroupDefinition>) returns (r: Option<seq<GroupSchema>>)
    requires GoodGroups(groups)
    ensures r.Some? <==> forall i | 0 <= i < |groups| :: FlatEvents(groups[i].events)
    ensures r.Some? ==>
              |r.value| == |groups| && forall i | 0 <= i < |groups| :: IsFallbackGroup(groups[i], r.value[i])
  {
    hide GoodGroup, FlatEvents, IsFallbackGroup;
    var schemas: seq<GroupSchema> := [];
    for i := 0 to |groups|
      invariant |schemas| == i
      invariant forall j | 0 <= j < i :: FlatEvents(groups[j].events)
      invariant forall j | 0 <= j < i :: IsFallbackGroup(groups[j], schemas[j])
    {
      var gs := BuildGroup(groups[i]);
      if gs.None? {
        return None;
      }
      schemas := schemas + [gs.value];
    }
    r := Some(schemas);
  }

  /** The fallback exists exactly for well-formed definitions with flat fields only. Its enum lists, which lie on the
      heap like the definition's, are its own: changing a list of the one never shows in the other. */
  method BuildValidationScheme(d: Option<Definition>, enums: map<string, array<string>>)
    returns (r: Option<Scheme>, copies: map<string, array<string>>)
    requires d.Some? && d.value.rules.Some? ==> Contents(enums) == d.value.rules.value.enums
    ensures r.Some? <==>
            && d.Some? && WellFormed(d.value)
            && forall i | 0 <= i < |d.value.groups| :: FlatEvents(d.value.groups[i].events)
    ensures r.Some? ==> IsFallback(d.value, r.value)
    ensures r.Some? && r.value.rules.Some? ==> Contents(copies) == r.value.rules.value.enums
    ensures forall k | k in copies :: fresh(copies[k])
  {
    hide GoodGroup, FlatEvents, IsFallbackGroup;
    copies := map[];
    var ok := Validate(d);
    if !ok {
      return None, copies;
    }
    if d.value.rules.Some? {
      copies := CloneEnums(enums);
    }
    var groups := BuildGroups(d.value.groups);
    if groups.None? {
      return None, copies;
    }
    r := Some(Scheme(d.value.version, CloneRules(d.value.rules), groups.value));
  }
}
