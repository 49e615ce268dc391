/** The fallback compiler preserves meaning: what the validator built from a definition's scheme does
    to an event, in terms of the definition (definition.go, validator.go). */
module Fallback {
  import opened Basics
  import opened GoStrings
  import opened GoNumbers
  import opened Events
  import opened Escaper
  import opened Versions
  import opened Scheme
  import opened Rules
  import opened Definition
  import opened Validator

  /** The tables that rule references of the definition resolve in. */
  function DefinitionTables(en: Engine, d: Definition): Tables {
    TablesOf(en, d.rules)
  }

  /** The chain that the declaration means for a field of a group: the rules of every event declaring it, as declared
      and in order, and the hash rule if some event anonymizes it. */
  function DeclaredChain(en: Engine, d: Definition, g: GroupDefinition, path: string): seq<Rule> {
    ParseAll(en, DeclaredRules(g.events, path), DefinitionTables(en, d)) + HashRules(g, path)
  }

  /** The same with the compiler's braces around every rule. */
  function BracedChain(en: Engine, d: Definition, g: GroupDefinition, path: string): seq<Rule> {
    ParseAll(en, Wrapped(DeclaredRules(g.events, path)), DefinitionTables(en, d)) + HashRules(g, path)
  }

  function HashRules(g: GroupDefinition, path: string): seq<Rule> {
    if path in AnonymizedFieldsOf(g.events) then [RegexpRule(HASH_PATTERN)] else []
  }

  /** Braces keep the meaning of every rule that the group declares for the path. */
  ghost predicate BracesAreHarmless(en: Engine, d: Definition, g: GroupDefinition, path: string) {
    var texts := DeclaredRules(g.events, path);
    forall i | 0 <= i < |texts| :: KeepsMeaning(en, texts[i], DefinitionTables(en, d))
  }

  function AnonymizedFieldsOf(events: seq<EventDefinition>): set<string> {
    set e, f | e in events && f in e.fields && f.anonymized :: f.path
  }

  // ---------- What the declaration contains ----------

  lemma {:induction false} FieldRulesMeaning(fields: seq<FieldDefinition>, path: string, x: string)
    ensures x in FieldRules(fields, path) <==>
            exists i :: 0 <= i < |fields| && fields[i].path == path && x in fields[i].rules
  {
    if fields != [] {
      var n := |fields| - 1;
      FieldRulesMeaning(fields[..n], path, x);
      if i :| 0 <= i < |fields| && fields[i].path == path && x in fields[i].rules {
        if i < n {
          assert fields[..n][i] == fields[i];
        }
      }
    }
  }

  /** A rule text is in the chain of a path iff some field of some event declares it for that path. */
  lemma {:induction false} DeclaredRulesMeaning(events: seq<EventDefinition>, path: string, x: string)
    ensures x in DeclaredRules(events, path) <==>
            exists i, j :: 0 <= i < |events| && 0 <= j < |events[i].fields| &&
                           events[i].fields[j].path == path && x in events[i].fields[j].rules
  {
    hide FieldRules;
    if events != [] {
      var n := |events| - 1;
      DeclaredRulesMeaning(events[..n], path, x);
      FieldRulesMeaning(events[n].fields, path, x);
      if i, j :| 0 <= i < |events| && 0 <= j < |events[i].fields| &&
                 events[i].fields[j].path == path && x in events[i].fields[j].rules {
        if i < n {
          assert events[..n][i] == events[i];
        }
      }
      if i, j :| 0 <= i < n && 0 <= j < |events[..n][i].fields| &&
                 events[..n][i].fields[j].path == path && x in events[..n][i].fields[j].rules {
        assert events[..n][i] == events[i];
      }
    }
  }

  lemma {:induction false} FieldRulesExist(fields: seq<FieldDefinition>, j: nat)
    requires j < |fields| && fields[j].rules != []
    ensures FieldRules(fields, fields[j].path) != []
  {
    if j < |fields| - 1 {
      FieldRulesExist(fields[..|fields| - 1], j);
    }
  }

  lemma {:induction false} DeclaredRulesExist(events: seq<EventDefinition>, i: nat, j: nat)
    requires i < |events| && j < |events[i].fields| && events[i].fields[j].rules != []
    ensures DeclaredRules(events, events[i].fields[j].path) != []
  {
    if i < |events| - 1 {
      DeclaredRulesExist(events[..|events| - 1], i, j);
    } else {
      FieldRulesExist(events[i].fields, j);
    }
  }

  lemma {:induction false} FieldRulesOfOthers(fields: seq<FieldDefinition>, path: string)
    requires forall j | 0 <= j < |fields| :: fields[j].path != path
    ensures FieldRules(fields, path) == []
  {
    if fields != [] {
      FieldRulesOfOthers(fields[..|fields| - 1], path);
    }
  }

  lemma {:induction false} DeclaredRulesOfOthers(events: seq<EventDefinition>, path: string)
    requires path !in DeclaredPaths(events)
    ensures DeclaredRules(events, path) == []
  {
    if events != [] {
      var n := |events| - 1;
      assert forall e | e in events[..n] :: e in events;
      DeclaredRulesOfOthers(events[..n], path);
      assert events[n] in events;
      FieldRulesOfOthers(events[n].fields, path);
    }
  }

  lemma DeclaredPathsHaveRules(events: seq<EventDefinition>, path: string)
    requires GoodEvents(events)
    ensures path in DeclaredPaths(events) <==> DeclaredRules(events, path) != []
  {
    if path in DeclaredPaths(events) {
      var e, f :| e in events && f in e.fields && f.path == path;
      var i :| 0 <= i < |events| && events[i] == e;
      var j :| 0 <= j < |e.fields| && e.fields[j] == f;
      assert GoodEvent(e);
      GoodEventHasRules(e);
      DeclaredRulesExist(events, i, j);
    } else {
      DeclaredRulesOfOthers(events, path);
    }
  }

  predicate Anonymizes(fields: seq<FieldDefinition>, path: string) {
    exists f :: f in fields && f.anonymized && f.path == path
  }

  lemma {:induction false} AnonymizedPathsMeaning(fields: seq<FieldDefinition>, path: string)
    ensures path in AnonymizedPaths(fields) <==> Anonymizes(fields, path)
  {
    if fields != [] {
      var front, f := fields[..|fields| - 1], fields[|fields| - 1];
      AnonymizedPathsMeaning(front, path);
      assert fields == front + [f];
    }
  }

  /** A path is collected as anonymized if and only if some event of the group anonymizes it. */
  lemma {:induction false} AnonymizedOfMeaning(events: seq<EventDefinition>, path: string)
    ensures path in AnonymizedFields(AnonymizedOf(events)) <==> path in AnonymizedFieldsOf(events)
  {
    hide AnonymizedPaths;
    if events != [] {
      var front, e := events[..|events| - 1], events[|events| - 1];
      var paths := AnonymizedPaths(e.fields);
      AnonymizedOfMeaning(front, path);
      AnonymizedPathsMeaning(e.fields, path);
      assert events == front + [e];
      assert path in AnonymizedFieldsOf(events) <==> path in AnonymizedFieldsOf(front) || Anonymizes(e.fields, path);
      var before, last := AnonymizedOf(front), if paths != [] then [AnonymizedField(e.id, paths)] else [];
      assert path in AnonymizedFields(last) <==> path in paths;
      assert path in AnonymizedFields(before + last) <==>
          path in AnonymizedFields(before) || path in AnonymizedFields(last);
    }
  }

  // ---------- The compiled group ----------

  lemma {:induction false} GroupsOfOthers(en: Engine, groups: seq<GroupSchema>, globals: Tables, id: string)
    requires forall j | 0 <= j < |groups| :: groups[j].id != id
    ensures id !in GroupsOf(en, groups, globals)
  {
    hide GroupOf;
    if groups != [] {
      GroupsOfOthers(en, groups[..|groups| - 1], globals, id);
    }
  }

  /** cg is what the validator compiled for group i of the definition. */
  lemma CompiledGroupOf(en: Engine, d: Definition, s: Scheme, i: nat) returns (cg: CompiledGroup)
    requires WellFormed(d) && IsFallback(d, s) && i < |d.groups|
    ensures FindGroup(Compile(en, s), d.groups[i].id) == Some(cg)
    ensures cg == GroupOf(en, s.groups[i], TablesOf(en, s.rules)) && s.groups[i].rules.Some?
    ensures Overlay(en, TablesOf(en, s.rules), s.groups[i].rules.value) == DefinitionTables(en, d)
    ensures IsFallbackGroup(d.groups[i], s.groups[i])
  {
    hide GoodGroup, IsEventData;
    var globals := TablesOf(en, s.rules);
    assert forall j | 0 <= j < |d.groups| :: s.groups[j].id == d.groups[j].id by {
      forall j | 0 <= j < |d.groups| ensures s.groups[j].id == d.groups[j].id {
        assert IsFallbackGroup(d.groups[j], s.groups[j]);
      }
    }
    GroupsOfLast(en, s.groups, globals, i);
    cg := GroupOf(en, s.groups[i], globals);
    assert globals == DefinitionTables(en, d);
    OverlayNothing(en, globals, s.groups[i].rules.value);
  }

  lemma OverlayNothing(en: Engine, t: Tables, local: SchemeRules)
    requires local.enums == map[] && local.regexps == map[] && local.ranges == map[]
    ensures Overlay(en, t, local) == t
  {
    assert t.enums + map[] == t.enums && t.ranges + map[] == t.ranges;
    assert CompiledRegexps(en, local.regexps) == map[] && t.regexps + map[] == t.regexps;
  }

  // ---------- Dropping ----------

  lemma VersionRangeIsOneVersion(version: Int64, v: Int64)
    requires version < MAX_INT
    ensures InVersionRange(VersionRange(version), v) <==> v == version
  {
    hide Itoa, Atoi;
    AtoiItoa(version);
    WrapOfInt(version + 1);
    AtoiItoa(version + 1);
    ItoaChars(version);
    ItoaChars(version + 1);
  }

  /** An event of a declared group is dropped if and only if its version is not the declared one. */
  lemma DroppedIffOtherVersion(
    en: Engine, printer: Printer, d: Definition, s: Scheme, i: nat, e: LogEvent, r: Option<LogEvent>)
    requires WellFormed(d) && IsFallback(d, s) && i < |d.groups| && e.group.id == d.groups[i].id
    requires IsValidated(en, printer, Compile(en, s), e, r)
    ensures r == None <==> e.group.version != d.groups[i].version
  {
    hide IsValidEventData, ValidEventID, InVersionRange, VersionRange, GroupOf;
    var cg := CompiledGroupOf(en, d, s, i);
    GroupOfRanges(en, s.groups[i], TablesOf(en, s.rules));
    assert GoodGroup(d.groups[i]);
    VersionRangeIsOneVersion(d.groups[i].version, e.group.version);
    assert VersionRange(d.groups[i].version) in cg.versionRanges;
  }

  lemma GroupOfRanges(en: Engine, g: GroupSchema, globals: Tables)
    ensures GroupOf(en, g, globals).buildRanges == g.builds && GroupOf(en, g, globals).versionRanges == g.versions
  {
  }

  /** An event of an undeclared group is never dropped. */
  lemma UndeclaredGroupIsKept(
    en: Engine, printer: Printer, d: Definition, s: Scheme, e: LogEvent, r: Option<LogEvent>)
    requires WellFormed(d) && IsFallback(d, s)
    requires forall i | 0 <= i < |d.groups| :: e.group.id != d.groups[i].id
    requires IsValidated(en, printer, Compile(en, s), e, r)
    ensures r.Some? && r.value.event.data == Some(map[UNDEFINED := Str(UNDEFINED)])
  {
    hide ValidEventID, IsFallbackGroup;
    assert forall j | 0 <= j < |d.groups| :: s.groups[j].id == d.groups[j].id by {
      forall j | 0 <= j < |d.groups| ensures s.groups[j].id == d.groups[j].id {
        FallbackGroupID(d.groups[j], s.groups[j]);
      }
    }
    GroupsOfOthers(en, s.groups, TablesOf(en, s.rules), e.group.id);
  }

  lemma FallbackGroupID(g: GroupDefinition, gs: GroupSchema)
    requires IsFallbackGroup(g, gs)
    ensures gs.id == g.id
  {
  }

  // ---------- Event IDs ----------

  lemma EventIDRuleMeans(en: Engine, e: EventDefinition, t: Tables)
    requires '|' !in e.id
    ensures ParseRule(en, EventIDRule(e), t) == EnumRule({TrimSpace(e.id)})
  {
    hide TrimSpace, ParseBody, ParseRule;
    BracedExpression(en, EnumExpr([e.id]), t);
    OneValueBody(en, e.id, t);
  }

  /** Enum rules with one value each accept a text iff it is one of the values. */
  lemma EventIDVerdict(en: Engine, events: seq<EventDefinition>, t: Tables, v: string)
    requires GoodEvents(events)
    ensures Verdict(en, ParseAll(en, EventIDRules(events), t), v) == Accepted <==>
            exists e :: e in events && TrimSpace(e.id) == v
  {
    hide TrimSpace, ParseRule, EventIDRule, GoodEvent;
    var rules := ParseAll(en, EventIDRules(events), t);
    var ids := seq(|events|, i requires 0 <= i < |events| => TrimSpace(events[i].id));
    forall i | 0 <= i < |rules| ensures rules[i] == EnumRule({ids[i]}) {
      GoodEventID(events[i]);
      EventIDRuleMeans(en, events[i], t);
    }
    SingletonsVerdict(en, rules, ids, v);
    if e :| e in events && TrimSpace(e.id) == v {
      var i :| 0 <= i < |events| && events[i] == e;
      assert ids[i] in ids;
    }
  }

  lemma GoodEventID(e: EventDefinition)
    requires GoodEvent(e)
    ensures '|' !in e.id
  {
  }

  lemma {:induction false} SingletonsVerdict(en: Engine, rules: seq<Rule>, ids: seq<string>, v: string)
    requires |ids| == |rules| && forall i | 0 <= i < |rules| :: rules[i] == EnumRule({ids[i]})
    ensures Verdict(en, rules, v) == Accepted <==> v in ids
  {
    if rules != [] {
      SingletonsVerdict(en, rules[1..], ids[1..], v);
      assert ids == [ids[0]] + ids[1..];
    }
  }

  /** An event ID of a declared group is kept if and only if it is reserved, or its escaped form is a trimmed
      declared ID; otherwise it becomes a sentinel. */
  lemma EventIDKeptIffDeclared(en: Engine, d: Definition, s: Scheme, i: nat, id: string)
    requires WellFormed(d) && IsFallback(d, s) && i < |d.groups|
    ensures var out := ValidEventID(en, id, FindGroup(Compile(en, s), d.groups[i].id));
            && (out == id <==>
                Reserved(id) || exists e :: e in d.groups[i].events && TrimSpace(e.id) == EscapeIDOrValue(id))
            && (out != id ==> out == if d.groups[i].events == [] then UNDEFINED else UNMATCHED)
  {
    SentinelsAreReserved();
    var cg := CompiledGroupOf(en, d, s, i);
    var g := d.groups[i];
    assert GoodGroup(g);
    var t := DefinitionTables(en, d);
    GroupOfEventIDs(en, s.groups[i], TablesOf(en, s.rules), t);
    hide GroupOf, Reserved, EscapeIDOrValue, TrimSpace, GoodEvents, ParseAll, Verdict;
    EventIDVerdict(en, g.events, t, EscapeIDOrValue(id));
    ParseAllLength(en, EventIDRules(g.events), t);
  }

  lemma ParseAllLength(en: Engine, exprs: seq<string>, t: Tables)
    ensures |ParseAll(en, exprs, t)| == |exprs|
  {
  }

  lemma GroupOfEventIDs(en: Engine, g: GroupSchema, globals: Tables, t: Tables)
    requires g.rules.Some? && Overlay(en, globals, g.rules.value) == t
    ensures GroupOf(en, g, globals).eventIDRules == ParseAll(en, g.rules.value.eventID, t)
    ensures GroupOf(en, g, globals).eventDataRules ==
            DataRules(en, g.rules.value.eventData, t, AnonymizedFields(g.anonymizedFields))
  {
  }

  // ---------- Values ----------

  /** The compiled chain of a declared field says of every text what the rules in braces say;
      a field that is not declared has no chain. */
  lemma CompiledChainMeansBraced(en: Engine, d: Definition, s: Scheme, i: nat, path: string)
    returns (cg: CompiledGroup)
    requires WellFormed(d) && IsFallback(d, s) && i < |d.groups|
    ensures FindGroup(Compile(en, s), d.groups[i].id) == Some(cg)
    ensures path in cg.eventDataRules <==> path in DeclaredPaths(d.groups[i].events)
    ensures path in cg.eventDataRules ==>
              forall v ::
                Verdict(en, cg.eventDataRules[path], v) == Verdict(en, BracedChain(en, d, d.groups[i], path), v)
  {
    cg := CompiledGroupOf(en, d, s, i);
    var g, gs, t := d.groups[i], s.groups[i], DefinitionTables(en, d);
    GroupOfEventIDs(en, gs, TablesOf(en, s.rules), t);
    AnonymizedOfMeaning(g.events, path);
    assert GoodGroup(g);
    DeclaredPathsHaveRules(g.events, path);
    hide GroupOf, ParseRule, Verdict, DeclaredRules, AnonymizedOf, GoodEvents, DeclaredPaths;
    hide FindGroup, Compile, Wrapped;
    var texts := Wrapped(DeclaredRules(g.events, path));
    WrappedNotEmpty(DeclaredRules(g.events, path));
    assert ListsOnce(gs.rules.value.eventData, path, texts);
    if texts != [] {
      DedupNotEmpty(texts);
      forall v ensures Verdict(en, cg.eventDataRules[path], v) == Verdict(en, BracedChain(en, d, g, path), v) {
        DedupKeepsVerdict(en, texts, t, v);
        SameVerdictWithHash(en, Dedup(texts), texts, t, path in AnonymizedFieldsOf(g.events), v);
      }
    }
  }

  lemma DedupNotEmpty(texts: seq<string>)
    requires texts != []
    ensures Dedup(texts) != []
  {
    DedupKeepsElements(texts, texts[0]);
  }

  lemma SameVerdictWithHash(en: Engine, a: seq<string>, b: seq<string>, t: Tables, hashed: bool, v: string)
    requires Verdict(en, ParseAll(en, a, t), v) == Verdict(en, ParseAll(en, b, t), v)
    ensures Verdict(en, FieldChain(en, a, t, hashed), v) == Verdict(en, FieldChain(en, b, t, hashed), v)
  {
    hide Verdict, ParseAll;
    var rest := if hashed then [RegexpRule(HASH_PATTERN)] else [];
    VerdictConcat(en, ParseAll(en, a, t), rest, v);
    VerdictConcat(en, ParseAll(en, b, t), rest, v);
  }

  /** If braces keep the meaning of each of its rules, the chain in braces says what the rules as declared say. */
  lemma BracedMeansDeclared(en: Engine, d: Definition, g: GroupDefinition, path: string, v: string)
    requires BracesAreHarmless(en, d, g, path)
    ensures Verdict(en, BracedChain(en, d, g, path), v) == Verdict(en, DeclaredChain(en, d, g, path), v)
  {
    var texts, t := DeclaredRules(g.events, path), DefinitionTables(en, d);
    hide DeclaredRules, ParseRule, Verdict, KeepsMeaning, SameRule, WrapBrace, HashRules, DefinitionTables;
    var a, b := ParseAll(en, Wrapped(texts), t), ParseAll(en, texts, t);
    forall i | 0 <= i < |a| ensures SameRule(en, a[i], b[i]) {
      BracesKeepMeaningIff(en, texts[i], t);
    }
    SameRulesSameVerdict(en, a, b, v);
    VerdictConcat(en, a, HashRules(g, path), v);
    VerdictConcat(en, b, HashRules(g, path), v);
  }

  /** The compiler preserves the meaning of the declaration: the compiled chain says of every text what the rules as
      declared say. For a field with one rule and no hash, this holds exactly if braces keep the meaning of that
      rule. */
  lemma CompiledChainMeansDeclared(en: Engine, d: Definition, s: Scheme, i: nat, path: string)
    returns (cg: CompiledGroup)
    requires WellFormed(d) && IsFallback(d, s) && i < |d.groups| && path in DeclaredPaths(d.groups[i].events)
    ensures FindGroup(Compile(en, s), d.groups[i].id) == Some(cg) && path in cg.eventDataRules
    ensures BracesAreHarmless(en, d, d.groups[i], path) ==> SaysWhatIsDeclared(en, d, i, path, cg)
    ensures |DeclaredRules(d.groups[i].events, path)| == 1 && path !in AnonymizedFieldsOf(d.groups[i].events) ==>
              (SaysWhatIsDeclared(en, d, i, path, cg) <==> BracesAreHarmless(en, d, d.groups[i], path))
  {
    cg := CompiledChainMeansBraced(en, d, s, i, path);
    var g := d.groups[i];
    hide BracedChain, DeclaredChain, DeclaredRules, Verdict, KeepsMeaning, FindGroup, Compile, BracesAreHarmless;
    if BracesAreHarmless(en, d, g, path) {
      forall v ensures Verdict(en, cg.eventDataRules[path], v) == Verdict(en, DeclaredChain(en, d, g, path), v) {
        BracedMeansDeclared(en, d, g, path, v);
      }
    } else if |DeclaredRules(g.events, path)| == 1 && path !in AnonymizedFieldsOf(g.events) {
      OneRuleDiffers(en, d, g, path);
    }
  }

  ghost predicate SaysWhatIsDeclared(en: Engine, d: Definition, i: nat, path: string, cg: CompiledGroup)
    requires i < |d.groups| && path in cg.eventDataRules
  {
    forall v :: Verdict(en, cg.eventDataRules[path], v) == Verdict(en, DeclaredChain(en, d, d.groups[i], path), v)
  }

  lemma SingleVerdict(en: Engine, r: Rule, v: string)
    ensures Verdict(en, [r] + [], v) == ValidateRule(en, r, v)
  {
    hide Atoi;
    assert [r] + [] == [r];
    VerdictOfOne(en, r, v);
  }

  lemma OneRuleDiffers(en: Engine, d: Definition, g: GroupDefinition, path: string)
    requires |DeclaredRules(g.events, path)| == 1 && path !in AnonymizedFieldsOf(g.events)
    requires !BracesAreHarmless(en, d, g, path)
    ensures exists v :: Verdict(en, BracedChain(en, d, g, path), v) != Verdict(en, DeclaredChain(en, d, g, path), v)
  {
    var texts, t := DeclaredRules(g.events, path), DefinitionTables(en, d);
    hide DeclaredRules, ParseRule, Verdict, KeepsMeaning, ValidateRule, WrapBrace, DefinitionTables;
    BracesKeepMeaningIff(en, texts[0], t);
    var a, b := ParseRule(en, WrapBrace(texts[0]), t), ParseRule(en, texts[0], t);
    var v :| ValidateRule(en, a, v) != ValidateRule(en, b, v);
    assert ParseAll(en, Wrapped(texts), t) == [a] && ParseAll(en, texts, t) == [b];
    SingleVerdict(en, a, v);
    SingleVerdict(en, b, v);
    assert Verdict(en, BracedChain(en, d, g, path), v) != Verdict(en, DeclaredChain(en, d, g, path), v);
  }

  /** What a value of a field becomes under a chain: kept if it is a reserved string, or some rule accepts its
      escaped text and no rule before that one gives a final result. Otherwise the incorrect-rule sentinel if an
      incorrect rule came first, else the unmatched-rule sentinel. */
  ghost predicate IsCheckedBy(en: Engine, printer: Printer, chain: seq<Rule>, raw: Value, out: Value) {
    var text := EscapeIDOrValue(TextOf(printer, raw));
    && (out == raw <==> (raw.Str? && Reserved(raw.s)) || exists n: nat :: Decides(en, chain, text, n, Accepted))
    && (out != raw ==> out == if exists n: nat :: Decides(en, chain, text, n, IncorrectRule)
                              then Str(INCORRECT) else Str(UNMATCHED))
  }

  /** A value of a declared field is treated as the declared rules, in braces, say; and if braces keep their meaning,
      as the rules say as they are declared. */
  lemma ValueKeptIffAccepted(
    en: Engine, printer: Printer, d: Definition, s: Scheme, i: nat, path: string, raw: Value)
    requires WellFormed(d) && IsFallback(d, s) && i < |d.groups| && path in DeclaredPaths(d.groups[i].events)
    ensures var g := FindGroup(Compile(en, s), d.groups[i].id);
            g.Some? && path in g.value.eventDataRules &&
            var out := CheckedValue(en, printer, g.value.eventDataRules[path], raw);
            && IsCheckedBy(en, printer, BracedChain(en, d, d.groups[i], path), raw, out)
            && (BracesAreHarmless(en, d, d.groups[i], path) ==>
                  IsCheckedBy(en, printer, DeclaredChain(en, d, d.groups[i], path), raw, out))
  {
    var cg := CompiledChainMeansBraced(en, d, s, i, path);
    var text := EscapeIDOrValue(TextOf(printer, raw));
    hide EscapeIDOrValue, TextOf, DeclaredChain, BracedChain, FindGroup, Compile, Verdict;
    hide BracesAreHarmless, IsCheckedBy, CheckedValue, DeclaredPaths, IsFallback, WellFormed;
    CheckedBySameVerdict(en, printer, cg.eventDataRules[path], BracedChain(en, d, d.groups[i], path), raw);
    if BracesAreHarmless(en, d, d.groups[i], path) {
      BracedMeansDeclared(en, d, d.groups[i], path, text);
      CheckedBySameVerdict(en, printer, cg.eventDataRules[path], DeclaredChain(en, d, d.groups[i], path), raw);
    }
  }

  lemma CheckedBySameVerdict(en: Engine, printer: Printer, rules: seq<Rule>, chain: seq<Rule>, raw: Value)
    requires Verdict(en, rules, EscapeIDOrValue(TextOf(printer, raw))) ==
             Verdict(en, chain, EscapeIDOrValue(TextOf(printer, raw)))
    ensures IsCheckedBy(en, printer, chain, raw, CheckedValue(en, printer, rules, raw))
  {
    SentinelsAreReserved();
    hide Reserved, EscapeIDOrValue, TextOf, Decides, Verdict;
    VerdictMeaning(en, chain, EscapeIDOrValue(TextOf(printer, raw)));
    assert IsFinal(Accepted) && IsFinal(IncorrectRule);
  }

  /** A chain of one rule is decided by it, if at all. */
  lemma DecidedByOne(en: Engine, r: Rule, v: string)
    ensures forall n: nat, x :: Decides(en, [r] + [], v, n, x) <==> n == 0 && ValidateRule(en, r, v) == x
  {
    hide ValidateRule;
    var rules := [r] + [];
    assert |rules| == 1 && rules[0] == r;
  }

  lemma CheckedByAccepting(en: Engine, printer: Printer, r: Rule, v: string)
    requires ValidateRule(en, r, v) == Accepted && EscapeIDOrValue(v) == v
    ensures IsCheckedBy(en, printer, [r] + [], Str(v), Str(v))
  {
    DecidedByOne(en, r, v);
    hide ValidateRule, Decides, Reserved, EscapeIDOrValue;
    assert Decides(en, [r] + [], v, 0, Accepted);
  }

  lemma CheckedByStub(en: Engine, printer: Printer, v: string, out: Value)
    requires IsCheckedBy(en, printer, [IncorrectStub] + [], Str(v), out) && !Reserved(v) && EscapeIDOrValue(v) == v
    ensures out == Str(INCORRECT)
  {
    DecidedByOne(en, IncorrectStub, v);
    hide Decides, Reserved, EscapeIDOrValue;
    assert Decides(en, [IncorrectStub] + [], v, 0, IncorrectRule);
  }

  /** Braces do not always keep the meaning of an accepted declaration: this definition is well-formed, its field's
      rule accepts the text v, and yet its fallback replaces v by the incorrect-rule sentinel. */
  lemma BracesMayBreakDefinition(en: Engine, printer: Printer, v: string) returns (d: Definition)
    requires Trimmed(v) && '|' !in v && EscapeIDOrValue(v) == v && !Reserved(v)
    ensures WellFormed(d) && |d.groups| == 1 && FlatEvents(d.groups[0].events)
    ensures IsCheckedBy(en, printer, DeclaredChain(en, d, d.groups[0], "field"), Str(v), Str(v))
    ensures forall s | IsFallback(d, s) :: IsCheckedTo(en, printer, d, s, "field", Str(v), Str(INCORRECT))
  {
    var rule := " " + EnumExpr([v]);
    var field := FieldDefinition("field", [rule], "", false, "");
    d := OneFieldDefinition(field);
    OneFieldWellFormed(field);
    OneFieldPaths(field);
    OneRuleChains(en, field, rule);
    BracesMayBreakUntrimmed(en, DefinitionTables(en, d), v);
    assert ValidateRule(en, EnumRule({v}), v) == Accepted;
    CheckedByAccepting(en, printer, EnumRule({v}), v);
    hide ParseRule, EnumExpr, WrapBrace, WellFormed, DeclaredPaths, FlatEvents, Reserved, DeclaredChain, BracedChain;
    hide IsCheckedTo, IsCheckedBy, EscapeIDOrValue, OneFieldDefinition, IsFallback;
    forall s | IsFallback(d, s) ensures IsCheckedTo(en, printer, d, s, "field", Str(v), Str(INCORRECT)) {
      var out := CheckedUnderBraces(en, printer, d, s, "field", Str(v));
      CheckedByStub(en, printer, v, out);
    }
  }

  /** The validator of the fallback turns a value of a field of the first group into out. */
  ghost predicate IsCheckedTo(
    en: Engine, printer: Printer, d: Definition, s: Scheme, path: string, raw: Value, out: Value)
    requires |d.groups| > 0
  {
    var g := FindGroup(Compile(en, s), d.groups[0].id);
    && g.Some? && path in g.value.eventDataRules
    && CheckedValue(en, printer, g.value.eventDataRules[path], raw) == out
  }

  lemma CheckedUnderBraces(en: Engine, printer: Printer, d: Definition, s: Scheme, path: string, raw: Value)
    returns (out: Value)
    requires WellFormed(d) && IsFallback(d, s) && |d.groups| > 0 && path in DeclaredPaths(d.groups[0].events)
    ensures IsCheckedTo(en, printer, d, s, path, raw, out)
    ensures IsCheckedBy(en, printer, BracedChain(en, d, d.groups[0], path), raw, out)
  {
    ValueKeptIffAccepted(en, printer, d, s, 0, path, raw);
    hide IsCheckedBy, BracedChain, DeclaredChain, BracesAreHarmless, CheckedValue, FindGroup, Compile;
    out := CheckedValue(en, printer, FindGroup(Compile(en, s), d.groups[0].id).value.eventDataRules[path], raw);
  }

  /** One group with one event with one field. */
  function OneFieldDefinition(f: FieldDefinition): (d: Definition)
    ensures |d.groups| == 1
  {
    Definition("1", None, [GroupDefinition("group", 1, "", "a group", [EventDefinition("event", "an event", [f])])])
  }

  lemma OneGoodField(f: FieldDefinition)
    requires f.path == "field" && f.rules != [] && f.dataType == ""
    ensures GoodFields([f])
  {
    SplitWithout("field", '.');
    hide Split;
    assert GoodField(f);
    hide GoodField;
    assert !Encloses(f.path, f.path);
  }

  lemma OneGoodEvent(f: FieldDefinition)
    requires GoodFields([f])
    ensures GoodEvents([EventDefinition("event", "an event", [f])])
  {
    NotBlank("an event");
    hide IsBlank, GoodFields;
    assert GoodEvent(EventDefinition("event", "an event", [f]));
    hide GoodEvent;
  }

  lemma OneFieldWellFormed(f: FieldDefinition)
    requires f.path == "field" && f.rules != [] && f.dataType == ""
    ensures WellFormed(OneFieldDefinition(f)) && FlatEvents(OneFieldDefinition(f).groups[0].events)
  {
    OneGoodField(f);
    OneGoodEvent(f);
    NotBlank("a group");
    hide IsBlank, GoodEvents, GoodFields;
    assert GoodGroup(OneFieldDefinition(f).groups[0]);
    hide GoodGroup;
  }

  lemma OneFieldPaths(f: FieldDefinition)
    requires f.path == "field"
    ensures var events := OneFieldDefinition(f).groups[0].events;
            && DeclaredRules(events, "field") == f.rules
            && "field" in DeclaredPaths(events)
            && ("field" in AnonymizedFieldsOf(events) <==> f.anonymized)
  {
    var g := OneFieldDefinition(f).groups[0];
    var e := g.events[0];
    assert [e][..0] == [] && [f][..0] == [];
    assert FieldRules([], "field") == [] && DeclaredRules([], "field") == [];
    assert [] + f.rules == f.rules;
    assert FieldRules([f], "field") == f.rules;
    assert e in g.events && f in e.fields;
  }

  lemma OneRuleChains(en: Engine, f: FieldDefinition, x: string)
    requires f.path == "field" && f.rules == [x]
    ensures var d := OneFieldDefinition(f);
            var g, t := d.groups[0], DefinitionTables(en, d);
            var hash := if f.anonymized then [RegexpRule(HASH_PATTERN)] else [];
            && DeclaredChain(en, d, g, "field") == [ParseRule(en, x, t)] + hash
            && BracedChain(en, d, g, "field") == [ParseRule(en, WrapBrace(x), t)] + hash
  {
    OneFieldPaths(f);
    hide OneFieldDefinition, DeclaredRules, AnonymizedFieldsOf, ParseRule, WrapBrace, DefinitionTables, DeclaredPaths;
    var t := DefinitionTables(en, OneFieldDefinition(f));
    assert ParseAll(en, [x], t) == [ParseRule(en, x, t)];
    assert Wrapped([x]) == [WrapBrace(x)];
    assert ParseAll(en, [WrapBrace(x)], t) == [ParseRule(en, WrapBrace(x), t)];
  }

  lemma NotBlank(s: string)
    requires s != "" && !IsSpace(s[0])
    ensures !IsBlank(s)
  {
    TrimRightAppend([s[0]], s[1..]);
    assert s == [s[0]] + s[1..];
  }

  /** A reference among the rules declared for a field, written with a helper, resolves to the definition's shared
      entry of that name, and it does so in braces as well. */
  lemma SharedEntriesResolve(
    en: Engine, d: Definition, g: GroupDefinition, path: string, shared: SchemeRules, n: nat, ref: string)
    requires d.rules == Some(shared) && Trimmed(ref) && n < |DeclaredRules(g.events, path)|
    ensures var text, rule := DeclaredRules(g.events, path)[n], DeclaredChain(en, d, g, path)[n];
            && (text == RangeRefExpr(ref) ==>
                  rule == if ref in shared.ranges then RangeRule(shared.ranges[ref]) else IncorrectStub)
            && (text == EnumRefExpr(ref) ==>
                  rule == if ref in shared.enums && shared.enums[ref] != []
                          then EnumRule(set v | v in shared.enums[ref] :: TrimSpace(v)) else IncorrectStub)
            && (text == RegexpRefExpr(ref) ==>
                  rule == if ref in shared.regexps && en.Compiles(shared.regexps[ref])
                          then RegexpRule(shared.regexps[ref]) else IncorrectStub)
            && (text in {RangeRefExpr(ref), EnumRefExpr(ref), RegexpRefExpr(ref)} ==>
                  BracedChain(en, d, g, path)[n] == rule)
  {
    TablesOfShared(en, d, shared);
    ReferencesAreTrimmed(ref);
    SchemeReferencesResolve(en, shared, ref);
    hide DeclaredRules, ParseRule, RangeRefExpr, EnumRefExpr, RegexpRefExpr, TablesOf, TrimSpace, Trimmed;
    hide DefinitionTables, HashRules, WrapBrace;
    var text := DeclaredRules(g.events, path)[n];
    assert DeclaredChain(en, d, g, path)[n] == ParseRule(en, text, DefinitionTables(en, d));
    assert BracedChain(en, d, g, path)[n] == ParseRule(en, WrapBrace(text), DefinitionTables(en, d));
    if text in {RangeRefExpr(ref), EnumRefExpr(ref), RegexpRefExpr(ref)} {
      BracesKeepTheRule(en, text, DefinitionTables(en, d));
    }
  }

  lemma TablesOfShared(en: Engine, d: Definition, shared: SchemeRules)
    requires d.rules == Some(shared)
    ensures DefinitionTables(en, d) == TablesOf(en, Some(shared))
  {
  }

  lemma ReferencesAreTrimmed(ref: string)
    requires Trimmed(ref)
    ensures Trimmed(RangeRefExpr(ref)) && !("{" <= RangeRefExpr(ref))
    ensures Trimmed(EnumRefExpr(ref)) && !("{" <= EnumRefExpr(ref))
    ensures Trimmed(RegexpRefExpr(ref)) && !("{" <= RegexpRefExpr(ref))
  {
    TrimmedAfter("range#", ref);
    TrimmedAfter("enum#", ref);
    TrimmedAfter("regexp#", ref);
    hide Trimmed;
  }

  // ---------- The two outputs agree ----------

  /** The version that is registered is exactly the one that the fallback accepts. */
  lemma RegisteredVersionIsAccepted(g: GroupDefinition, gs: GroupSchema, recorder: string, v: Int64)
    requires GoodGroup(g) && IsFallbackGroup(g, gs)
    ensures |gs.versions| == 1 && (InVersionRange(gs.versions[0], v) <==> v == ESGroupOf(g, recorder).version)
  {
    hide GoodEvents, IsEventData, AnonymizedOf, EventIDRules, InVersionRange, VersionRange;
    VersionRangeIsOneVersion(g.version, v);
  }

  /** The registration metadata and the fallback of one definition name the same groups with the same events, in
      order. */
  lemma SameGroupsAndEvents(d: Definition, groups: seq<ESGroup>, recorder: string, s: Scheme)
    requires IsFallback(d, s) && |groups| == |d.groups|
    requires forall i | 0 <= i < |d.groups| :: groups[i] == ESGroupOf(d.groups[i], recorder)
    ensures |s.groups| == |groups|
    ensures forall i | 0 <= i < |groups| ::
      && s.groups[i].id == groups[i].id
      && s.groups[i].groupType == groups[i].groupType
      && s.groups[i].rules.Some?
      && |s.groups[i].rules.value.eventID| == |groups[i].events|
      && forall k | 0 <= k < |groups[i].events| ::
        s.groups[i].rules.value.eventID[k] == "{" + EnumExpr([groups[i].events[k].event]) + "}"
  {
    hide Join, IsEventData, ESFieldOf;
    forall i | 0 <= i < |groups| ensures IsFallbackGroup(d.groups[i], s.groups[i]) {
    }
  }

  /** Some event of the group registers a field under the path. */
  predicate IsRegistered(g: GroupDefinition, path: string) {
    exists k, j :: 0 <= k < |g.events| && 0 <= j < |ESEventOf(g.events[k]).fields| &&
                   ESEventOf(g.events[k]).fields[j].path == path
  }

  /** The fallback has a rule list for exactly the registered fields. */
  lemma SamePaths(g: GroupDefinition, gs: GroupSchema, path: string)
    requires GoodGroup(g) && IsFallbackGroup(g, gs)
    ensures path in gs.rules.value.eventData <==> IsRegistered(g, path)
  {
    hide Wrapped, Dedup, DeclaredRules, GoodEvent;
    var texts := DeclaredRules(g.events, path);
    assert ListsOnce(gs.rules.value.eventData, path, Wrapped(texts));
    WrappedNotEmpty(texts);
    DeclaredPathsHaveRules(g.events, path);
    if path in DeclaredPaths(g.events) {
      var e, f :| e in g.events && f in e.fields && f.path == path;
      var k :| 0 <= k < |g.events| && g.events[k] == e;
      var j :| 0 <= j < |e.fields| && e.fields[j] == f;
      assert ESEventOf(g.events[k]).fields[j].path == path;
    }
    if k, j :| 0 <= k < |g.events| && 0 <= j < |ESEventOf(g.events[k]).fields| &&
               ESEventOf(g.events[k]).fields[j].path == path {
      assert g.events[k] in g.events && g.events[k].fields[j] in g.events[k].fields;
    }
  }

  /** Every registered field has a rule list in the fallback; unless it is anonymized, all its registered rules are
      there. */
  lemma RegisteredRulesAreInFallback(g: GroupDefinition, gs: GroupSchema, k: nat, j: nat)
    requires GoodGroup(g) && IsFallbackGroup(g, gs) && k < |g.events| && j < |g.events[k].fields|
    ensures var f := ESFieldOf(g.events[k].fields[j]);
            && f.path in gs.rules.value.eventData
            && (!f.shouldBeAnonymized ==> forall x | x in f.value :: x in gs.rules.value.eventData[f.path])
  {
    hide Wrapped, WrapBrace, Dedup, DeclaredRules, GoodEvent;
    var f := g.events[k].fields[j];
    GoodEventHasRules(g.events[k]);
    DeclaredRulesExist(g.events, k, j);
    var texts := DeclaredRules(g.events, f.path);
    WrappedNotEmpty(texts);
    assert ListsOnce(gs.rules.value.eventData, f.path, Wrapped(texts));
    forall x | x in Wrapped(f.rules) ensures x in gs.rules.value.eventData[f.path] {
      WrappedContains(f.rules, x);
      var i :| 0 <= i < |f.rules| && WrapBrace(f.rules[i]) == x;
      DeclaredRulesMeaning(g.events, f.path, f.rules[i]);
      var n :| 0 <= n < |texts| && texts[n] == f.rules[i];
      WrappedContains(texts, x);
      DedupKeepsElements(Wrapped(texts), x);
    }
  }

  /** A field is registered as anonymized if and only if the fallback lists it for that same event. */
  lemma RegisteredAnonymizedIffListed(g: GroupDefinition, gs: GroupSchema, k: nat, j: nat)
    requires GoodGroup(g) && IsFallbackGroup(g, gs) && k < |g.events| && j < |g.events[k].fields|
    ensures var f := ESFieldOf(g.events[k].fields[j]);
            f.shouldBeAnonymized <==>
            exists a :: a in gs.anonymizedFields && a.event == g.events[k].id && f.path in a.fields
  {
    hide AnonymizedOf, AnonymizedPaths, IsEventData, Wrapped, EventIDRules;
    var e := g.events[k];
    assert GoodEvent(e);
    AnonymizedForEvent(g.events, k);
    AnonymizedPathsMeaning(e.fields, e.fields[j].path);
    PathMeansField(e.fields, j);
  }

  lemma PathMeansField(fields: seq<FieldDefinition>, j: nat)
    requires GoodFields(fields) && j < |fields|
    ensures fields[j].anonymized <==> Anonymizes(fields, fields[j].path)
  {
    if f :| f in fields && f.anonymized && f.path == fields[j].path {
      var i :| 0 <= i < |fields| && fields[i] == f;
    }
  }

  /** The fallback lists exactly the anonymized paths of each event, under its ID. */
  lemma {:induction false} AnonymizedForEvent(events: seq<EventDefinition>, k: nat)
    requires GoodEvents(events) && k < |events|
    ensures forall p :: p in AnonymizedPaths(events[k].fields) <==>
              exists a :: a in AnonymizedOf(events) && a.event == events[k].id && p in a.fields
  {
    hide AnonymizedPaths, GoodEvent;
    var n := |events| - 1;
    var paths := AnonymizedPaths(events[n].fields);
    assert GoodEvents(events[..n]);
    if k < n {
      AnonymizedForEvent(events[..n], k);
    } else {
      AnonymizedForOthers(events[..n], events[n].id);
      if paths != [] {
        assert AnonymizedField(events[n].id, paths) in AnonymizedOf(events);
      }
    }
  }

  lemma {:induction false} AnonymizedForOthers(events: seq<EventDefinition>, id: string)
    requires forall i | 0 <= i < |events| :: events[i].id != id
    ensures forall a | a in AnonymizedOf(events) :: a.event != id
  {
    hide AnonymizedPaths;
    if events != [] {
      AnonymizedForOthers(events[..|events| - 1], id);
    }
  }
}
