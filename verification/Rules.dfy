/** Validation rules: parsing rule expressions, evaluating rule chains (validator.go). */
module Rules {
  import opened Basics
  import opened GoStrings
  import opened GoNumbers
  import opened Scheme
  import Device

  const HASH_PATTERN := "[0-9a-f]{64}(#[SC])+"

  /** The regular-expression engine: which patterns it compiles, and which strings a pattern matches in full.
      The pattern of anonymized values is spelled out; the others are left to the engine. */
  datatype Engine = Engine(compilesOther: string -> bool, matchesOther: (string, string) -> bool)
  {
    predicate Compiles(pattern: string) {
      pattern == HASH_PATTERN || compilesOther(pattern)
    }

    predicate Matches(pattern: string, s: string) {
      if pattern == HASH_PATTERN then Device.IsHash(s) else matchesOther(pattern, s)
    }
  }

  datatype RuleResult = Accepted | Rejected | IncorrectRule | UndefinedRule

  const UNMATCHED := "validation.unmatched_rule"
  const INCORRECT := "validation.incorrect_rule"
  const UNDEFINED := "validation.undefined_rule"

  datatype Rule =
    | EnumRule(values: set<string>)
    | RegexpRule(pattern: string)
    | RangeRule(range: IntRange)
    | IncorrectStub

  function ValidateRule(en: Engine, rule: Rule, v: string): RuleResult {
    match rule
    case EnumRule(values) => if values == {} then IncorrectRule else if v in values then Accepted else Rejected
    case RegexpRule(pattern) => if en.Matches(pattern, v) then Accepted else Rejected
    case RangeRule(r) =>
      (match Atoi(v)
       case Number(n) => if r.from <= n <= r.to then Accepted else Rejected
       case _ => Rejected)
    case IncorrectStub => IncorrectRule
  }

  // ---------- Reference tables ----------

  datatype Tables = Tables(enums: map<string, seq<string>>, regexps: map<string, string>, ranges: map<string, IntRange>)

  function CompiledRegexps(en: Engine, regexps: map<string, string>): map<string, string> {
    map k | k in regexps && en.Compiles(regexps[k]) :: regexps[k]
  }

  /** The patterns that compile; a broken one is left out. */
  method CompileRegexps(en: Engine, base: map<string, string>, regexps: map<string, string>)
    returns (out: map<string, string>)
    ensures out == base + CompiledRegexps(en, regexps)
  {
    out := base;
    var todo := regexps.Keys;
    ghost var done: map<string, string> := map[];
    while todo != {}
      invariant todo <= regexps.Keys
      invariant done == map k | k in regexps && k !in todo && en.Compiles(regexps[k]) :: regexps[k]
      invariant out == base + done
    {
      var k :| k in todo;
      if en.Compiles(regexps[k]) {
        out := out[k := regexps[k]];
        done := done[k := regexps[k]];
      }
      todo := todo - {k};
    }
    assert done == CompiledRegexps(en, regexps);
  }

  function TablesOf(en: Engine, rules: Option<SchemeRules>): Tables {
    match rules
    case None => Tables(map[], map[], map[])
    case Some(r) => Tables(r.enums, CompiledRegexps(en, r.regexps), r.ranges)
  }

  method CompileGlobalRules(en: Engine, rules: Option<SchemeRules>) returns (t: Tables)
    ensures t == TablesOf(en, rules)
  {
    if rules.None? {
      return Tables(map[], map[], map[]);
    }
    var regexps := CompileRegexps(en, map[], rules.value.regexps);
    assert map[] + CompiledRegexps(en, rules.value.regexps) == CompiledRegexps(en, rules.value.regexps);
    t := Tables(rules.value.enums, regexps, rules.value.ranges);
  }

  /** A group's own tables override the scheme's entry by entry. */
  function Overlay(en: Engine, base: Tables, local: SchemeRules): Tables {
    Tables(base.enums + local.enums, base.regexps + CompiledRegexps(en, local.regexps), base.ranges + local.ranges)
  }

  method MergeRules(en: Engine, base: Tables, local: SchemeRules) returns (t: Tables)
    ensures t == Overlay(en, base, local)
  {
    if |local.enums| == 0 && |local.regexps| == 0 && |local.ranges| == 0 {
      assert base.enums + local.enums == base.enums && base.ranges + local.ranges == base.ranges;
      assert base.regexps + CompiledRegexps(en, local.regexps) == base.regexps;
      return base;
    }
    var regexps := CompileRegexps(en, base.regexps, local.regexps);
    t := Tables(base.enums + local.enums, regexps, base.ranges + local.ranges);
  }

  // ---------- Parsing ----------

  function EnumOf(values: seq<string>): Rule {
    if values == [] then IncorrectStub else EnumRule(set v | v in values :: TrimSpace(v))
  }

  method MakeEnumRule(values: seq<string>) returns (r: Rule)
    ensures r == EnumOf(values)
  {
    if |values| == 0 {
      return IncorrectStub;
    }
    var m: set<string> := {};
    for i := 0 to |values|
      invariant m == set v | v in values[..i] :: TrimSpace(v)
    {
      assert values[..i + 1] == values[..i] + [values[i]];
      m := m + {TrimSpace(values[i])};
    }
    assert values[..|values|] == values;
    r := EnumRule(m);
  }

  function ParseIntRange(s: string): Option<IntRange> {
    match CutDots(s)
    case None => None
    case Some((a, b)) =>
      match (Atoi(TrimSpace(a)), Atoi(TrimSpace(b)))
      case (Number(from), Number(to)) => Some(IntRange(from, to))
      case _ => None
  }

  predicate IsBraced(s: string) {
    s != "" && s[0] == '{' && s[|s| - 1] == '}'
  }

  function StripBraces(s: string): string {
    if IsBraced(s) then s[1..|s| - 1] else s
  }

  function ParseRule(en: Engine, expr: string, t: Tables): Rule {
    ParseBody(en, StripBraces(TrimSpace(expr)), t)
  }

  /** An expression without white space around it and without its braces. */
  function ParseBody(en: Engine, s: string, t: Tables): Rule {
    if "enum:" <= s then EnumOf(Split(s[5..], '|'))
    else if "enum#" <= s then (if s[5..] in t.enums then EnumOf(t.enums[s[5..]]) else IncorrectStub)
    else if "regexp:" <= s then (if en.Compiles(s[7..]) then RegexpRule(s[7..]) else IncorrectStub)
    else if "regexp#" <= s then (if s[7..] in t.regexps then RegexpRule(t.regexps[s[7..]]) else IncorrectStub)
    else if "range:" <= s then
      (match ParseIntRange(s[6..]) case Some(r) => RangeRule(r) case None => IncorrectStub)
    else if "range#" <= s then (if s[6..] in t.ranges then RangeRule(t.ranges[s[6..]]) else IncorrectStub)
    else IncorrectStub
  }

  function ParseAll(en: Engine, exprs: seq<string>, t: Tables): seq<Rule> {
    seq(|exprs|, i requires 0 <= i < |exprs| => ParseRule(en, exprs[i], t))
  }

  // ---------- Printing and parsing undo each other ----------

  lemma TrimmedIsKept(s: string)
    requires Trimmed(s)
    ensures TrimSpace(s) == s
  {
    TrimSpaceMeaning(s);
  }

  /** A trimmed expression without braces is its own body. */
  lemma PlainExpression(en: Engine, s: string, t: Tables)
    requires Trimmed(s) && (s == "" || s[0] != '{')
    ensures ParseRule(en, s, t) == ParseBody(en, s, t)
  {
    TrimmedIsKept(s);
  }

  lemma BracedExpression(en: Engine, s: string, t: Tables)
    ensures ParseRule(en, "{" + s + "}", t) == ParseBody(en, s, t)
  {
    var e := "{" + s + "}";
    TrimmedIsKept(e);
    assert e[1..|e| - 1] == s;
  }

  /** A single brace stays part of the expression. */
  lemma SingleBraceStays(en: Engine, s: string, t: Tables)
    requires Trimmed(s) && s != "" && (s[0] == '{' <==> s[|s| - 1] != '}')
    ensures ParseRule(en, s, t) == if s[0] == '{' then IncorrectStub else ParseBody(en, s, t)
  {
    TrimmedIsKept(s);
    if s[0] == '{' {
      NoPrefixBody(en, s, t);
    }
  }

  /** Braces around a trimmed expression do not change its rule. */
  lemma BracesKeepTheRule(en: Engine, expr: string, t: Tables)
    requires Trimmed(expr) && !("{" <= expr)
    ensures ParseRule(en, WrapBrace(expr), t) == ParseRule(en, expr, t)
  {
    hide ParseBody;
    PlainExpression(en, expr, t);
    BracedExpression(en, expr, t);
  }

  /** Around an untrimmed one they may: the white space is no longer outside. */
  lemma BracesMayBreakUntrimmed(en: Engine, t: Tables, v: string)
    requires Trimmed(v) && '|' !in v
    ensures ParseRule(en, " " + EnumExpr([v]), t) == EnumRule({v})
    ensures ParseRule(en, WrapBrace(" " + EnumExpr([v])), t) == IncorrectStub
  {
    hide TrimSpace;
    var e := EnumExpr([v]);
    TrimmedAfter("enum:", v);
    TrimmedIsKept(v);
    LeadingSpace(e);
    OneValueBody(en, v, t);
    BracedExpression(en, " " + e, t);
    assert (" " + e)[0] == ' ';
  }

  lemma LeadingSpace(e: string)
    requires Trimmed(e)
    ensures TrimSpace(" " + e) == e
  {
    assert (" " + e)[1..] == e;
    TrimmedIsKept(e);
  }

  lemma TrimmedAfter(p: string, s: string)
    requires Trimmed(p) && Trimmed(s) && p != ""
    ensures Trimmed(p + s) && (p + s)[0] == p[0]
  {
    if s == "" {
      assert p + s == p;
    }
  }

  lemma EnumBody(en: Engine, x: string, t: Tables)
    ensures ParseBody(en, "enum:" + x, t) == EnumOf(Split(x, '|'))
  {
    hide EnumOf, Split;
    assert ("enum:" + x)[5..] == x;
  }

  /** One value, no bar: the body of an inline enum rule. */
  lemma OneValueBody(en: Engine, v: string, t: Tables)
    requires '|' !in v
    ensures ParseBody(en, EnumExpr([v]), t) == EnumRule({TrimSpace(v)})
  {
    hide TrimSpace, ParseBody;
    EnumBody(en, v, t);
    SplitWithout(v, '|');
    assert (set x | x in [v] :: TrimSpace(x)) == {TrimSpace(v)};
  }

  lemma RangeBody(en: Engine, x: string, t: Tables)
    ensures ParseBody(en, "range:" + x, t) ==
            match ParseIntRange(x) case Some(r) => RangeRule(r) case None => IncorrectStub
  {
    hide ParseIntRange;
    var s := "range:" + x;
    assert s[6..] == x && s[0] == 'r' && s[1] == 'a';
  }

  lemma RangeExprParses(en: Engine, from: Int64, to: Int64, t: Tables)
    ensures ParseRule(en, RangeExpr(from, to), t) == RangeRule(IntRange(from, to))
  {
    hide Itoa, TrimSpace, Atoi, ParseBody;
    var a, b := Itoa(from), Itoa(to);
    ItoaIsTrimmed(from);
    ItoaIsTrimmed(to);
    TrimmedAfter("range:", a);
    TrimmedAfter("range:" + a, "..");
    TrimmedAfter("range:" + a + "..", b);
    PlainExpression(en, RangeExpr(from, to), t);
    assert RangeExpr(from, to) == "range:" + (a + ".." + b);
    RangeBody(en, a + ".." + b, t);
    CutDotsFirst(a, b);
    AtoiItoa(from);
    AtoiItoa(to);
  }

  lemma ItoaIsTrimmed(n: Int64)
    ensures Trimmed(Itoa(n)) && TrimSpace(Itoa(n)) == Itoa(n) && '.' !in Itoa(n)
  {
    hide Itoa;
    ItoaChars(n);
    var s := Itoa(n);
    assert s[0] in s && s[|s| - 1] in s;
    TrimmedIsKept(s);
  }

  lemma EnumRefBody(en: Engine, ref: string, t: Tables)
    ensures ParseBody(en, "enum#" + ref, t) == if ref in t.enums then EnumOf(t.enums[ref]) else IncorrectStub
  {
    hide EnumOf, Split;
    var s := "enum#" + ref;
    assert s[5..] == ref && s[0] == 'e' && s[4] == '#';
  }

  lemma RegexpRefBody(en: Engine, ref: string, t: Tables)
    ensures ParseBody(en, "regexp#" + ref, t) == if ref in t.regexps then RegexpRule(t.regexps[ref]) else IncorrectStub
  {
    hide EnumOf, Split;
    var s := "regexp#" + ref;
    assert s[7..] == ref && s[0] == 'r' && s[1] == 'e' && s[6] == '#';
  }

  lemma RangeRefBody(en: Engine, ref: string, t: Tables)
    ensures ParseBody(en, "range#" + ref, t) == if ref in t.ranges then RangeRule(t.ranges[ref]) else IncorrectStub
  {
    hide EnumOf, Split, ParseIntRange;
    var s := "range#" + ref;
    assert s[6..] == ref && s[0] == 'r' && s[1] == 'a' && s[5] == '#';
  }

  /** A printed reference resolves to the entry of that name. */
  lemma ReferencesResolve(en: Engine, ref: string, t: Tables)
    requires Trimmed(ref)
    ensures ParseRule(en, EnumRefExpr(ref), t) == if ref in t.enums then EnumOf(t.enums[ref]) else IncorrectStub
    ensures ParseRule(en, RegexpRefExpr(ref), t) ==
            if ref in t.regexps then RegexpRule(t.regexps[ref]) else IncorrectStub
    ensures ParseRule(en, RangeRefExpr(ref), t) == if ref in t.ranges then RangeRule(t.ranges[ref]) else IncorrectStub
  {
    hide EnumOf, ParseBody, ParseRule;
    TrimmedAfter("enum#", ref);
    PlainExpression(en, "enum#" + ref, t);
    EnumRefBody(en, ref, t);
    TrimmedAfter("regexp#", ref);
    PlainExpression(en, "regexp#" + ref, t);
    RegexpRefBody(en, ref, t);
    TrimmedAfter("range#", ref);
    PlainExpression(en, "range#" + ref, t);
    RangeRefBody(en, ref, t);
  }

  /** A reference in a group's rule resolves to the group's own entry, else to the scheme's. A pattern of the group
      that does not compile does not hide the scheme's. */
  lemma LocalReferencesComeFirst(en: Engine, global: Option<SchemeRules>, local: SchemeRules, ref: string)
    requires Trimmed(ref)
    ensures var base := TablesOf(en, global);
            var t := Overlay(en, base, local);
            && ParseRule(en, EnumRefExpr(ref), t) ==
               (if ref in local.enums then EnumOf(local.enums[ref]) else ParseRule(en, EnumRefExpr(ref), base))
            && ParseRule(en, RegexpRefExpr(ref), t) ==
               (if ref in local.regexps && en.Compiles(local.regexps[ref]) then RegexpRule(local.regexps[ref])
                else ParseRule(en, RegexpRefExpr(ref), base))
            && ParseRule(en, RangeRefExpr(ref), t) ==
               (if ref in local.ranges then RangeRule(local.ranges[ref]) else ParseRule(en, RangeRefExpr(ref), base))
  {
    hide EnumOf, ParseRule, EnumRefExpr, RegexpRefExpr, RangeRefExpr, TablesOf;
    var base := TablesOf(en, global);
    ReferencesResolve(en, ref, base);
    ReferencesResolve(en, ref, Overlay(en, base, local));
  }

  /** In the compiled scheme, a reference resolves to the scheme's own range of that name, to the trimmed values of
      its enum, or to its pattern if that compiles; else it is no rule. */
  lemma SchemeReferencesResolve(en: Engine, r: SchemeRules, ref: string)
    requires Trimmed(ref)
    ensures ParseRule(en, RangeRefExpr(ref), TablesOf(en, Some(r))) ==
            if ref in r.ranges then RangeRule(r.ranges[ref]) else IncorrectStub
    ensures ParseRule(en, EnumRefExpr(ref), TablesOf(en, Some(r))) ==
            if ref in r.enums && r.enums[ref] != [] then EnumRule(set v | v in r.enums[ref] :: TrimSpace(v))
            else IncorrectStub
    ensures ParseRule(en, RegexpRefExpr(ref), TablesOf(en, Some(r))) ==
            if ref in r.regexps && en.Compiles(r.regexps[ref]) then RegexpRule(r.regexps[ref]) else IncorrectStub
  {
    hide ParseRule, EnumRefExpr, RegexpRefExpr, RangeRefExpr, TrimSpace;
    ReferencesResolve(en, ref, TablesOf(en, Some(r)));
  }

  /** A scheme without rules of its own resolves nothing. */
  lemma NothingResolves(en: Engine, ref: string)
    requires Trimmed(ref)
    ensures ParseRule(en, RangeRefExpr(ref), TablesOf(en, None)) == IncorrectStub
    ensures ParseRule(en, EnumRefExpr(ref), TablesOf(en, None)) == IncorrectStub
    ensures ParseRule(en, RegexpRefExpr(ref), TablesOf(en, None)) == IncorrectStub
  {
    hide ParseRule, EnumRefExpr, RegexpRefExpr, RangeRefExpr;
    ReferencesResolve(en, ref, TablesOf(en, None));
  }

  // ---------- Exactly when braces keep the meaning ----------

  /** Two rules say the same of every text. */
  ghost predicate SameRule(en: Engine, a: Rule, b: Rule) {
    forall v :: ValidateRule(en, a, v) == ValidateRule(en, b, v)
  }

  function EnumAt(t: Tables, ref: string): Rule {
    if ref in t.enums then EnumOf(t.enums[ref]) else IncorrectStub
  }

  function RegexpAt(t: Tables, ref: string): Option<string> {
    if ref in t.regexps then Some(t.regexps[ref]) else None
  }

  function RangeAt(t: Tables, ref: string): Option<IntRange> {
    if ref in t.ranges then Some(t.ranges[ref]) else None
  }

  function PatternOf(en: Engine, p: string): Option<string> {
    if en.Compiles(p) then Some(p) else None
  }

  function RegexpOrStub(p: Option<string>): Rule {
    match p case None => IncorrectStub case Some(x) => RegexpRule(x)
  }

  function RangeOrStub(r: Option<IntRange>): Rule {
    match r case None => IncorrectStub case Some(x) => RangeRule(x)
  }

  /** Both missing, or two patterns that match the same texts. */
  ghost predicate PatternsAlike(en: Engine, p: Option<string>, q: Option<string>) {
    p.Some? == q.Some? && (p.Some? ==> forall v :: en.Matches(p.value, v) == en.Matches(q.value, v))
  }

  /** Both missing, or the same range, or two empty ones. */
  predicate RangesAlike(a: Option<IntRange>, b: Option<IntRange>) {
    && a.Some? == b.Some?
    && (a.Some? ==> a == b || (a.value.from > a.value.to && b.value.from > b.value.to))
  }

  /** The expression x, which does not start with white space, means the same with its trailing white space kept.
      Inline enums and ranges trim their parts; a pattern or a reference has the white space in it. */
  ghost predicate TailIsHarmless(en: Engine, x: string, t: Tables) {
    if "regexp:" <= x then PatternsAlike(en, PatternOf(en, x[7..]), PatternOf(en, TrimRight(x[7..])))
    else if "regexp#" <= x then PatternsAlike(en, RegexpAt(t, x[7..]), RegexpAt(t, TrimRight(x[7..])))
    else if "enum#" <= x then EnumAt(t, x[5..]) == EnumAt(t, TrimRight(x[5..]))
    else if "range#" <= x then RangesAlike(RangeAt(t, x[6..]), RangeAt(t, TrimRight(x[6..])))
    else true
  }

  /** What an expression must be like for braces not to change what it means. */
  ghost predicate KeepsMeaning(en: Engine, x: string, t: Tables) {
    || "{" <= x || Trimmed(x)
    || (if IsSpace(x[0]) then ParseRule(en, x, t) == IncorrectStub else TailIsHarmless(en, x, t))
  }

  lemma SameIsSame(en: Engine, a: Rule)
    ensures SameRule(en, a, a)
  {
  }

  /** An enum rule that the parser makes is never empty. */
  lemma ParsedEnumHasValues(en: Engine, s: string, t: Tables)
    ensures ParseBody(en, s, t) != EnumRule({})
  {
    hide Split, TrimSpace, ParseIntRange;
    forall values: seq<string> | values != [] ensures EnumOf(values) != EnumRule({}) {
      EnumHasValues(values);
    }
  }

  lemma EnumHasValues(values: seq<string>)
    ensures EnumOf(values) != EnumRule({})
  {
    hide TrimSpace;
    if values != [] {
      var trims := set v | v in values :: TrimSpace(v);
      assert values[0] in values;
      assert TrimSpace(values[0]) in trims;
    }
  }

  lemma OnlyStubIsIncorrect(en: Engine, r: Rule)
    requires r != EnumRule({})
    ensures SameRule(en, IncorrectStub, r) <==> r == IncorrectStub
  {
    hide Atoi;
    assert SameRule(en, IncorrectStub, r) ==> ValidateRule(en, r, "") == IncorrectRule;
  }

  lemma SameEnums(en: Engine, a: Rule, b: Rule)
    requires (a.EnumRule? || a == IncorrectStub) && (b.EnumRule? || b == IncorrectStub)
    requires a != EnumRule({}) && b != EnumRule({})
    ensures SameRule(en, a, b) <==> a == b
  {
    if SameRule(en, a, b) {
      assert ValidateRule(en, a, "") == ValidateRule(en, b, "");
      if a.EnumRule? {
        forall v ensures v in a.values <==> v in b.values {
          assert ValidateRule(en, a, v) == ValidateRule(en, b, v);
        }
        assert a.values == b.values;
      }
    }
  }

  lemma SamePatterns(en: Engine, p: Option<string>, q: Option<string>)
    ensures SameRule(en, RegexpOrStub(p), RegexpOrStub(q)) <==> PatternsAlike(en, p, q)
  {
    var a, b := RegexpOrStub(p), RegexpOrStub(q);
    if SameRule(en, a, b) {
      assert ValidateRule(en, a, "") == ValidateRule(en, b, "");
      if p.Some? {
        forall v ensures en.Matches(p.value, v) == en.Matches(q.value, v) {
          assert ValidateRule(en, a, v) == ValidateRule(en, b, v);
        }
      }
    }
  }

  predicate InRange(r: IntRange, n: Int64) {
    r.from <= n <= r.to
  }

  lemma RangeOfNumber(en: Engine, r: IntRange, n: Int64)
    ensures ValidateRule(en, RangeRule(r), Itoa(n)) == if InRange(r, n) then Accepted else Rejected
  {
    hide Atoi, Itoa;
    AtoiItoa(n);
  }

  lemma SameRanges(en: Engine, a: Option<IntRange>, b: Option<IntRange>)
    ensures SameRule(en, RangeOrStub(a), RangeOrStub(b)) <==> RangesAlike(a, b)
  {
    hide Atoi, Itoa;
    var x, y := RangeOrStub(a), RangeOrStub(b);
    if SameRule(en, x, y) {
      assert ValidateRule(en, x, "") == ValidateRule(en, y, "");
      if a.Some? {
        forall n: Int64 ensures InRange(a.value, n) <==> InRange(b.value, n) {
          RangeOfNumber(en, a.value, n);
          RangeOfNumber(en, b.value, n);
          assert ValidateRule(en, x, Itoa(n)) == ValidateRule(en, y, Itoa(n));
        }
        BoundsAgree(a.value, b.value);
      }
    }
  }

  lemma BoundsAgree(a: IntRange, b: IntRange)
    requires forall n: Int64 :: InRange(a, n) <==> InRange(b, n)
    ensures RangesAlike(Some(a), Some(b))
  {
    assert InRange(a, a.from) <==> InRange(b, a.from);
    assert InRange(a, a.to) <==> InRange(b, a.to);
    assert InRange(a, b.from) <==> InRange(b, b.from);
    assert InRange(a, b.to) <==> InRange(b, b.to);
  }

  lemma RegexpBody(en: Engine, p: string, t: Tables)
    ensures ParseBody(en, "regexp:" + p, t) == RegexpOrStub(PatternOf(en, p))
  {
    hide EnumOf, Split;
    var s := "regexp:" + p;
    assert s[7..] == p && s[0] == 'r' && s[1] == 'e' && s[6] == ':';
  }

  /** A printed pattern parses to the pattern without trailing white space, if that compiles. */
  lemma RegexpExprParses(en: Engine, p: string, t: Tables)
    ensures ParseRule(en, RegexpExpr(p), t) == RegexpOrStub(PatternOf(en, TrimRight(p)))
  {
    hide ParseBody, PatternOf;
    UnwrappedBody(en, "regexp:" + p, t);
    TrimRightAppend("regexp:", p);
    RegexpBody(en, TrimRight(p), t);
  }

  /** An expression that starts with neither white space nor a brace loses its trailing white space only. */
  lemma UnwrappedBody(en: Engine, x: string, t: Tables)
    requires x != "" && !IsSpace(x[0]) && x[0] != '{'
    ensures ParseRule(en, x, t) == ParseBody(en, TrimRight(x), t)
  {
    TrimRightEnds(x);
    hide ParseBody;
    TrimRightAppend([x[0]], x[1..]);
    assert x == [x[0]] + x[1..];
  }

  /** With white space in front there is no rule any more. */
  lemma LeadingSpaceBody(en: Engine, x: string, t: Tables)
    requires x != "" && IsSpace(x[0])
    ensures ParseBody(en, x, t) == IncorrectStub
  {
  }

  predicate HasPrefix(x: string) {
    "enum:" <= x || "enum#" <= x || "regexp:" <= x || "regexp#" <= x || "range:" <= x || "range#" <= x
  }

  lemma NoPrefixBody(en: Engine, x: string, t: Tables)
    requires !HasPrefix(x)
    ensures ParseBody(en, x, t) == IncorrectStub
  {
  }

  lemma EnumTail(en: Engine, y: string, t: Tables)
    ensures ParseBody(en, "enum:" + y, t) == ParseBody(en, "enum:" + TrimRight(y), t)
  {
    hide TrimSpace, TrimRight, ParseBody, ParseRule, Split, Join;
    var values := Split(y, '|');
    JoinSplit(y, '|');
    SplitParts(y, '|');
    assert forall i | 0 <= i < |values| :: values[i] in values;
    EnumExprParses(en, values, t);
    UnwrappedBody(en, "enum:" + y, t);
    TrimRightAppend("enum:", y);
    EnumBody(en, y, t);
  }

  lemma {:induction false} CutDotsTail(y: string)
    ensures match CutDots(y)
            case None => CutDots(TrimRight(y)).None?
            case Some((a, b)) => CutDots(TrimRight(y)) == Some((a, TrimRight(b)))
    decreases |y|
  {
    if y != "" {
      var c, rest := y[0], y[1..];
      assert y == [c] + rest;
      TrimRightPrepend(c, rest);
      CutDotsTail(rest);
      if |y| >= 2 && y[..2] == ".." {
        assert y == ".." + y[2..];
        TrimRightAppend("..", y[2..]);
        assert (".." + TrimRight(y[2..]))[..2] == ".." && (".." + TrimRight(y[2..]))[2..] == TrimRight(y[2..]);
      } else {
        NoDotsInFront(c, rest);
      }
    }
  }

  lemma NoDotsInFront(c: char, rest: string)
    requires !(".." <= [c] + rest)
    requires match CutDots(rest)
             case None => CutDots(TrimRight(rest)).None?
             case Some((a, b)) => CutDots(TrimRight(rest)) == Some((a, TrimRight(b)))
    ensures match CutDots([c] + rest)
            case None => CutDots(TrimRight([c] + rest)).None?
            case Some((a, b)) => CutDots(TrimRight([c] + rest)) == Some((a, TrimRight(b)))
  {
    TrimRightPrepend(c, rest);
    TrimRightEnds(rest);
    hide TrimRight;
    var r := TrimRight(rest);
    assert ([c] + rest)[1..] == rest && ([c] + r)[1..] == r;
    assert |rest| >= 1 ==> ([c] + rest)[..2] == [c, rest[0]];
    assert |r| >= 1 ==> ([c] + r)[..2] == [c, r[0]];
    CutDotsNeedsTwo(rest);
    CutDotsNeedsTwo(r);
  }

  lemma CutDotsNeedsTwo(s: string)
    ensures |s| < 2 ==> CutDots(s).None?
  {
  }

  lemma RangeTail(en: Engine, y: string, t: Tables)
    ensures ParseBody(en, "range:" + y, t) == ParseBody(en, "range:" + TrimRight(y), t)
  {
    hide TrimSpace, TrimRight, ParseBody, CutDots, Atoi;
    RangeBody(en, y, t);
    RangeBody(en, TrimRight(y), t);
    CutDotsTail(y);
    match CutDots(y)
    case None =>
    case Some((a, b)) => TrimRightFirst(b);
  }

  /** Keeping trailing white space keeps the meaning in exactly the harmless cases. */
  lemma TailMeaning(en: Engine, x: string, t: Tables)
    requires x != "" && !IsSpace(x[0])
    ensures SameRule(en, ParseBody(en, x, t), ParseBody(en, TrimRight(x), t)) <==> TailIsHarmless(en, x, t)
  {
    hide ParseBody, SameRule, TrimRight, PatternOf, PatternsAlike, RangesAlike, EnumAt, RegexpAt, RangeAt;
    if "regexp:" <= x {
      PrefixSplits("regexp:", x);
      TailOfPattern(en, x[7..], t);
    } else if "regexp#" <= x {
      PrefixSplits("regexp#", x);
      TailOfRegexpRef(en, x[7..], t);
    } else if "enum#" <= x {
      PrefixSplits("enum#", x);
      TailOfEnumRef(en, x[5..], t);
    } else if "range#" <= x {
      PrefixSplits("range#", x);
      TailOfRangeRef(en, x[6..], t);
    } else {
      TailOfOthers(en, x, t);
    }
  }

  lemma PrefixSplits(p: string, x: string)
    requires p <= x
    ensures x == p + x[|p|..]
  {
  }

  /** Inline enums and ranges, and what is no rule at all. */
  lemma TailOfOthers(en: Engine, x: string, t: Tables)
    requires !("regexp:" <= x) && !("regexp#" <= x) && !("enum#" <= x) && !("range#" <= x)
    ensures SameRule(en, ParseBody(en, x, t), ParseBody(en, TrimRight(x), t))
  {
    hide ParseBody, SameRule, TrimRight;
    SameIsSame(en, ParseBody(en, x, t));
    if "enum:" <= x {
      PrefixSplits("enum:", x);
      EnumTail(en, x[5..], t);
      TrimRightAppend("enum:", x[5..]);
    } else if "range:" <= x {
      PrefixSplits("range:", x);
      RangeTail(en, x[6..], t);
      TrimRightAppend("range:", x[6..]);
    } else {
      TrimRightEnds(x);
      NoPrefixBody(en, x, t);
      NoPrefixBody(en, TrimRight(x), t);
    }
  }

  lemma TailOfPattern(en: Engine, p: string, t: Tables)
    ensures SameRule(en, ParseBody(en, "regexp:" + p, t), ParseBody(en, TrimRight("regexp:" + p), t)) <==>
            PatternsAlike(en, PatternOf(en, p), PatternOf(en, TrimRight(p)))
  {
    hide ParseBody, SameRule, TrimRight, PatternOf, PatternsAlike;
    TrimRightAppend("regexp:", p);
    RegexpBody(en, p, t);
    RegexpBody(en, TrimRight(p), t);
    SamePatterns(en, PatternOf(en, p), PatternOf(en, TrimRight(p)));
  }

  lemma TailOfRegexpRef(en: Engine, ref: string, t: Tables)
    ensures SameRule(en, ParseBody(en, "regexp#" + ref, t), ParseBody(en, TrimRight("regexp#" + ref), t)) <==>
            PatternsAlike(en, RegexpAt(t, ref), RegexpAt(t, TrimRight(ref)))
  {
    hide ParseBody, SameRule, TrimRight, PatternsAlike;
    TrimRightAppend("regexp#", ref);
    RegexpRefBody(en, ref, t);
    RegexpRefBody(en, TrimRight(ref), t);
    SamePatterns(en, RegexpAt(t, ref), RegexpAt(t, TrimRight(ref)));
  }

  lemma TailOfEnumRef(en: Engine, ref: string, t: Tables)
    ensures SameRule(en, ParseBody(en, "enum#" + ref, t), ParseBody(en, TrimRight("enum#" + ref), t)) <==>
            EnumAt(t, ref) == EnumAt(t, TrimRight(ref))
  {
    hide ParseBody, SameRule, TrimRight;
    TrimRightAppend("enum#", ref);
    EnumRefBody(en, ref, t);
    EnumRefBody(en, TrimRight(ref), t);
    ParsedEnumHasValues(en, "enum#" + ref, t);
    ParsedEnumHasValues(en, "enum#" + TrimRight(ref), t);
    SameEnums(en, EnumAt(t, ref), EnumAt(t, TrimRight(ref)));
  }

  lemma TailOfRangeRef(en: Engine, ref: string, t: Tables)
    ensures SameRule(en, ParseBody(en, "range#" + ref, t), ParseBody(en, TrimRight("range#" + ref), t)) <==>
            RangesAlike(RangeAt(t, ref), RangeAt(t, TrimRight(ref)))
  {
    hide ParseBody, SameRule, TrimRight, RangesAlike;
    TrimRightAppend("range#", ref);
    RangeRefBody(en, ref, t);
    RangeRefBody(en, TrimRight(ref), t);
    SameRanges(en, RangeAt(t, ref), RangeAt(t, TrimRight(ref)));
  }

  /** The compiler's braces keep what a rule expression means if and only if the expression has braces already, or is
      trimmed, or starts with white space and is no rule anyway, or has harmless white space at its end. */
  lemma BracesKeepMeaningIff(en: Engine, x: string, t: Tables)
    ensures SameRule(en, ParseRule(en, WrapBrace(x), t), ParseRule(en, x, t)) <==> KeepsMeaning(en, x, t)
  {
    hide ParseBody, ParseRule, SameRule, TailIsHarmless, Trimmed;
    if "{" <= x {
      SameIsSame(en, ParseRule(en, x, t));
    } else if Trimmed(x) {
      BracesKeepTheRule(en, x, t);
      SameIsSame(en, ParseRule(en, x, t));
    } else {
      assert x != "" by { EmptyIsTrimmed(); }
      BracedExpression(en, x, t);
      if IsSpace(x[0]) {
        LeadingSpaceBody(en, x, t);
        ParsedRuleHasValues(en, x, t);
        OnlyStubIsIncorrect(en, ParseRule(en, x, t));
      } else {
        UnwrappedBody(en, x, t);
        TailMeaning(en, x, t);
      }
    }
  }

  lemma EmptyIsTrimmed()
    ensures Trimmed("")
  {
  }

  lemma ParsedRuleHasValues(en: Engine, x: string, t: Tables)
    ensures ParseRule(en, x, t) != EnumRule({})
  {
    ParsedEnumHasValues(en, StripBraces(TrimSpace(x)), t);
  }

  /** The two halves of trimming commute. */
  lemma {:induction false} TrimHalvesCommute(s: string)
    ensures TrimLeft(TrimRight(s)) == TrimRight(TrimLeft(s))
  {
    if s != "" {
      var c, rest := s[0], s[1..];
      assert s == [c] + rest;
      TrimRightPrepend(c, rest);
      if IsSpace(c) {
        TrimHalvesCommute(rest);
        assert ([c] + TrimRight(rest))[1..] == TrimRight(rest);
      }
    }
  }

  lemma {:induction false} TrimRightPrepend(c: char, s: string)
    ensures TrimRight([c] + s) == if TrimRight(s) == "" && IsSpace(c) then "" else [c] + TrimRight(s)
  {
    var t := [c] + s;
    if s == "" {
      assert t[..0] == "";
    } else if IsSpace(s[|s| - 1]) {
      assert t[..|t| - 1] == [c] + s[..|s| - 1];
      TrimRightPrepend(c, s[..|s| - 1]);
    }
  }

  lemma {:induction false} TrimRightIdempotent(s: string)
    ensures TrimRight(TrimRight(s)) == TrimRight(s)
  {
    if s != "" && IsSpace(s[|s| - 1]) {
      TrimRightIdempotent(s[..|s| - 1]);
    }
  }

  lemma {:induction false} TrimRightAppend(a: string, b: string)
    requires a != "" && !IsSpace(a[|a| - 1])
    ensures TrimRight(a + b) == a + TrimRight(b)
  {
    if b == "" {
      assert a + b == a;
    } else if IsSpace(b[|b| - 1]) {
      TrimRightAppend(a, b[..|b| - 1]);
      assert (a + b)[..|a + b| - 1] == a + b[..|b| - 1];
    }
  }

  lemma {:induction false} TrimRightOfPrefixed(p: string, values: seq<string>)
    requires values != [] && p != "" && !IsSpace(p[|p| - 1])
    ensures var last := values[|values| - 1];
            p + Join(values[..|values| - 1] + [TrimRight(last)], '|') == TrimRight(p + Join(values, '|'))
    decreases |values|
  {
    var last := values[|values| - 1];
    if |values| == 1 {
      TrimRightAppend(p, last);
      assert values[..0] + [TrimRight(last)] == [TrimRight(last)];
    } else {
      var q := p + values[0] + "|";
      var rest := values[1..];
      TrimRightOfPrefixed(q, rest);
      var trimmed := values[..|values| - 1] + [TrimRight(last)];
      assert trimmed[1..] == rest[..|rest| - 1] + [TrimRight(last)];
      assert p + (values[0] + "|" + Join(rest, '|')) == q + Join(rest, '|');
      assert p + (values[0] + "|" + Join(trimmed[1..], '|')) == q + Join(trimmed[1..], '|');
    }
  }

  /** An inline enum of any non-empty list without bars parses to exactly its trimmed values. */
  lemma EnumExprParses(en: Engine, values: seq<string>, t: Tables)
    requires values != [] && forall i | 0 <= i < |values| :: '|' !in values[i]
    ensures ParseRule(en, EnumExpr(values), t) == EnumRule(set v | v in values :: TrimSpace(v))
  {
    hide TrimRight, ParseBody;
    var n := |values| - 1;
    var trimmed := values[..n] + [TrimRight(values[n])];
    var body := Join(trimmed, '|');
    TrimRightOfPrefixed("enum:", values);
    assert EnumExpr(values)[0] == 'e';
    TrimSpaceMeaning(EnumExpr(values));
    assert ParseRule(en, EnumExpr(values), t) == ParseBody(en, "enum:" + body, t);
    TrimRightEnds(values[n]);
    assert forall i | 0 <= i < |trimmed| :: '|' !in trimmed[i];
    SplitJoin(trimmed, '|');
    EnumBody(en, body, t);
    TrimRightFirst(values[n]);
    SameTrims(values, trimmed);
  }

  lemma TrimRightFirst(s: string)
    ensures TrimSpace(TrimRight(s)) == TrimSpace(s)
  {
    TrimHalvesCommute(s);
    TrimRightIdempotent(TrimLeft(s));
  }

  lemma SameTrims(a: seq<string>, b: seq<string>)
    requires |a| == |b| && forall i | 0 <= i < |a| :: TrimSpace(a[i]) == TrimSpace(b[i])
    ensures (set v | v in a :: TrimSpace(v)) == (set v | v in b :: TrimSpace(v))
  {
    hide TrimSpace;
    TrimsWithin(a, b);
    TrimsWithin(b, a);
  }

  lemma TrimsWithin(a: seq<string>, b: seq<string>)
    requires |a| == |b| && forall i | 0 <= i < |a| :: TrimSpace(a[i]) == TrimSpace(b[i])
    ensures (set v | v in a :: TrimSpace(v)) <= (set v | v in b :: TrimSpace(v))
  {
    hide TrimSpace;
    forall v | v in a ensures exists w :: w in b && TrimSpace(w) == TrimSpace(v) {
      var i :| 0 <= i < |a| && a[i] == v;
      assert b[i] in b;
    }
  }

  // ---------- Rule chains ----------

  predicate IsFinal(r: RuleResult) {
    r == Accepted || r == IncorrectRule
  }

  /** The first final result, else rejected. */
  function Verdict(en: Engine, rules: seq<Rule>, v: string): RuleResult {
    if rules == [] then Rejected
    else
      var r := ValidateRule(en, rules[0], v);
      if IsFinal(r) then r else Verdict(en, rules[1..], v)
  }

  method AcceptRules(en: Engine, rules: seq<Rule>, v: string) returns (res: RuleResult)
    ensures res == Verdict(en, rules, v)
  {
    var last := Rejected;
    var matched := false;
    for i := 0 to |rules|
      invariant Verdict(en, rules, v) == Verdict(en, rules[i..], v) && last == Rejected
    {
      var r := ValidateRule(en, rules[i], v);
      if r == Accepted || r == IncorrectRule {
        return r;
      }
      last := r;
      matched := true;
    }
    if !matched {
      return Rejected;
    }
    return last;
  }

  /** Rule i decides: it gives the final result r and no rule before it gives one. */
  ghost predicate Decides(en: Engine, rules: seq<Rule>, v: string, i: nat, r: RuleResult) {
    && i < |rules|
    && ValidateRule(en, rules[i], v) == r
    && forall j | 0 <= j < i :: !IsFinal(ValidateRule(en, rules[j], v))
  }

  lemma {:induction false} VerdictMeaning(en: Engine, rules: seq<Rule>, v: string)
    ensures forall r | IsFinal(r) :: Verdict(en, rules, v) == r <==> exists i: nat :: Decides(en, rules, v, i, r)
    ensures IsFinal(Verdict(en, rules, v)) || Verdict(en, rules, v) == Rejected
  {
    hide ValidateRule;
    if rules != [] {
      var first := ValidateRule(en, rules[0], v);
      if IsFinal(first) {
        assert Decides(en, rules, v, 0, first);
      } else {
        VerdictMeaning(en, rules[1..], v);
        forall r | IsFinal(r)
          ensures (exists i: nat :: Decides(en, rules, v, i, r)) <==>
                  (exists i: nat :: Decides(en, rules[1..], v, i, r))
        {
          if i: nat :| Decides(en, rules, v, i, r) {
            assert Decides(en, rules[1..], v, i - 1, r);
          }
          if i: nat :| Decides(en, rules[1..], v, i, r) {
            assert Decides(en, rules, v, i + 1, r);
          }
        }
      }
    }
  }

  predicate IsRejectedBefore(en: Engine, rules: seq<Rule>, v: string, i: nat)
    requires i <= |rules|
  {
    forall j | 0 <= j < i :: ValidateRule(en, rules[j], v) == Rejected
  }

  /** A chain accepts a text iff some rule accepts it and all before it reject it, finds it incorrect iff some rule
      does and all before it reject it, and rejects it iff all rules do. */
  lemma {:induction false} VerdictIsFirst(en: Engine, rules: seq<Rule>, v: string)
    ensures Verdict(en, rules, v) == Accepted <==>
            exists i :: 0 <= i < |rules| && ValidateRule(en, rules[i], v) == Accepted
                        && IsRejectedBefore(en, rules, v, i)
    ensures Verdict(en, rules, v) == IncorrectRule <==>
            exists i :: 0 <= i < |rules| && ValidateRule(en, rules[i], v) == IncorrectRule
                        && IsRejectedBefore(en, rules, v, i)
    ensures Verdict(en, rules, v) == Rejected <==> IsRejectedBefore(en, rules, v, |rules|)
  {
    if rules != [] {
      VerdictIsFirst(en, rules[1..], v);
      RuleResults(en, rules[0], v);
      hide ValidateRule;
      forall i: nat | i < |rules|
        ensures IsRejectedBefore(en, rules, v, i + 1) <==>
                ValidateRule(en, rules[0], v) == Rejected && IsRejectedBefore(en, rules[1..], v, i)
      {
        RejectedShifted(en, rules, v, i);
      }
      var first := ValidateRule(en, rules[0], v);
      if first == Rejected {
        ShiftedResult(en, rules, v, Accepted);
        ShiftedResult(en, rules, v, IncorrectRule);
        RejectedShifted(en, rules, v, |rules| - 1);
      } else {
        assert IsRejectedBefore(en, rules, v, 0);
      }
    }
  }

  lemma RuleResults(en: Engine, r: Rule, v: string)
    ensures ValidateRule(en, r, v) in {Accepted, Rejected, IncorrectRule}
  {
    hide Atoi;
  }

  lemma RejectedShifted(en: Engine, rules: seq<Rule>, v: string, i: nat)
    requires i < |rules|
    ensures IsRejectedBefore(en, rules, v, i + 1) <==>
            ValidateRule(en, rules[0], v) == Rejected && IsRejectedBefore(en, rules[1..], v, i)
  {
    hide ValidateRule;
    if ValidateRule(en, rules[0], v) == Rejected && IsRejectedBefore(en, rules[1..], v, i) {
      forall j | 0 <= j < i + 1 ensures ValidateRule(en, rules[j], v) == Rejected {
        if j > 0 {
          assert rules[1..][j - 1] == rules[j];
        }
      }
    }
    if IsRejectedBefore(en, rules, v, i + 1) {
      forall j | 0 <= j < i ensures ValidateRule(en, rules[1..][j], v) == Rejected {
        assert rules[1..][j] == rules[j + 1];
      }
    }
  }

  /** Behind a rule that rejects, a result is found one position further on. */
  lemma ShiftedResult(en: Engine, rules: seq<Rule>, v: string, r: RuleResult)
    requires rules != [] && ValidateRule(en, rules[0], v) == Rejected && r != Rejected
    ensures (exists i :: 0 <= i < |rules| && ValidateRule(en, rules[i], v) == r
                         && IsRejectedBefore(en, rules, v, i)) <==>
            exists i :: 0 <= i < |rules[1..]| && ValidateRule(en, rules[1..][i], v) == r
                        && IsRejectedBefore(en, rules[1..], v, i)
  {
    hide ValidateRule;
    if i :| 0 <= i < |rules| && ValidateRule(en, rules[i], v) == r && IsRejectedBefore(en, rules, v, i) {
      RejectedShifted(en, rules, v, i - 1);
      assert rules[1..][i - 1] == rules[i];
    }
    if i :| 0 <= i < |rules[1..]| && ValidateRule(en, rules[1..][i], v) == r && IsRejectedBefore(en, rules[1..], v, i) {
      RejectedShifted(en, rules, v, i);
      assert rules[1..][i] == rules[i + 1];
    }
  }

  /** Chains whose rules say the same one by one have the same verdicts. */
  lemma {:induction false} SameRulesSameVerdict(en: Engine, a: seq<Rule>, b: seq<Rule>, v: string)
    requires |a| == |b| && forall i | 0 <= i < |a| :: SameRule(en, a[i], b[i])
    ensures Verdict(en, a, v) == Verdict(en, b, v)
  {
    hide ValidateRule;
    if a != [] {
      assert SameRule(en, a[0], b[0]);
      SameRulesSameVerdict(en, a[1..], b[1..], v);
    }
  }

  lemma {:induction false} VerdictConcat(en: Engine, a: seq<Rule>, b: seq<Rule>, v: string)
    ensures Verdict(en, a + b, v) ==
            if IsFinal(Verdict(en, a, v)) then Verdict(en, a, v) else Verdict(en, b, v)
  {
    hide ValidateRule;
    if a == [] {
      assert a + b == b;
    } else {
      assert (a + b)[1..] == a[1..] + b;
      VerdictConcat(en, a[1..], b, v);
    }
  }

  /** Keeps the first occurrence of each text. */
  function Dedup(s: seq<string>): seq<string> {
    if s == [] then []
    else
      var front, x := Dedup(s[..|s| - 1]), s[|s| - 1];
      if x in front then front else front + [x]
  }

  lemma ParseAllConcat(en: Engine, a: seq<string>, b: seq<string>, t: Tables)
    ensures ParseAll(en, a + b, t) == ParseAll(en, a, t) + ParseAll(en, b, t)
  {
    hide ParseRule;
  }

  /** A rule that is already in a chain without a final result has none either. */
  lemma {:induction false} RepeatIsNotFinal(en: Engine, exprs: seq<string>, x: string, t: Tables, v: string)
    requires x in exprs && !IsFinal(Verdict(en, ParseAll(en, exprs, t), v))
    ensures !IsFinal(ValidateRule(en, ParseRule(en, x, t), v))
  {
    hide ValidateRule, ParseRule;
    var rules := ParseAll(en, exprs, t);
    if exprs[0] != x {
      assert rules[1..] == ParseAll(en, exprs[1..], t);
      RepeatIsNotFinal(en, exprs[1..], x, t, v);
    }
  }

  lemma VerdictOfOne(en: Engine, r: Rule, v: string)
    ensures Verdict(en, [r], v) == if IsFinal(ValidateRule(en, r, v)) then ValidateRule(en, r, v) else Rejected
  {
    hide ValidateRule;
    assert [r][1..] == [];
  }

  /** Dropping repeated rule texts never changes what a chain says. */
  lemma {:induction false} DedupKeepsVerdict(en: Engine, exprs: seq<string>, t: Tables, v: string)
    ensures Verdict(en, ParseAll(en, Dedup(exprs), t), v) == Verdict(en, ParseAll(en, exprs, t), v)
  {
    hide ValidateRule, ParseRule, Verdict;
    if exprs != [] {
      var front, x := exprs[..|exprs| - 1], exprs[|exprs| - 1];
      DedupKeepsVerdict(en, front, t, v);
      DedupKeepsElements(front, x);
      OneMoreRule(en, front, x, t, v);
      assert front + [x] == exprs;
      if x in front {
        NonFinalIsRejected(en, ParseAll(en, front, t), v);
        if !IsFinal(Verdict(en, ParseAll(en, front, t), v)) {
          RepeatIsNotFinal(en, front, x, t, v);
        }
      } else {
        OneMoreRule(en, Dedup(front), x, t, v);
      }
    }
  }

  lemma NonFinalIsRejected(en: Engine, rules: seq<Rule>, v: string)
    ensures IsFinal(Verdict(en, rules, v)) || Verdict(en, rules, v) == Rejected
  {
    VerdictMeaning(en, rules, v);
  }

  lemma OneMoreRule(en: Engine, exprs: seq<string>, x: string, t: Tables, v: string)
    ensures var before := Verdict(en, ParseAll(en, exprs, t), v);
            var last := ValidateRule(en, ParseRule(en, x, t), v);
            Verdict(en, ParseAll(en, exprs + [x], t), v) ==
            if IsFinal(before) then before else if IsFinal(last) then last else Rejected
  {
    hide ValidateRule, ParseRule, Verdict;
    ParseAllConcat(en, exprs, [x], t);
    assert ParseAll(en, [x], t) == [ParseRule(en, x, t)];
    VerdictConcat(en, ParseAll(en, exprs, t), ParseAll(en, [x], t), v);
    VerdictOfOne(en, ParseRule(en, x, t), v);
  }

  lemma {:induction false} DedupKeepsElements(exprs: seq<string>, x: string)
    ensures x in Dedup(exprs) <==> x in exprs
  {
    if exprs != [] {
      DedupKeepsElements(exprs[..|exprs| - 1], x);
      assert exprs == exprs[..|exprs| - 1] + [exprs[|exprs| - 1]];
    }
  }
}
