/** What a tracked event looks like when it has gone through the whole pipeline
    (logger.go, anonymizer.go, validator.go, escaper.go). */
module Guarantees {
  import opened Basics
  import opened GoStrings
  import opened Events
  import opened Device
  import opened Escaper
  import opened Versions
  import opened Rules
  import opened Validator
  import opened Anonymizer
  import opened Pipeline
  import Logger

  lemma SentinelsAreFixed()
    ensures EscapeFieldName(UNDEFINED) == UNDEFINED && EscapeIDOrValue(UNDEFINED) == UNDEFINED
    ensures EscapeIDOrValue(UNMATCHED) == UNMATCHED && EscapeIDOrValue(INCORRECT) == INCORRECT
  {
    hide EscapeFieldName, EscapeIDOrValue;
    ResultTypesAreFixedPoints(UNDEFINED);
    ResultTypesAreFixedPoints(UNMATCHED);
    ResultTypesAreFixedPoints(INCORRECT);
  }

  lemma EscapedString(s: string, x: Value)
    requires Escaped(Str(s), x)
    ensures x == Str(EscapeIDOrValue(s))
  {
  }

  /** What is written for an event of an unknown group. */
  lemma UnknownGroupOnWire(w: map<string, Value>)
    requires Escaped(Obj(map[UNDEFINED := Str(UNDEFINED)]), Obj(w))
    ensures w == map[UNDEFINED := Str(UNDEFINED)]
  {
    var kept := map[UNDEFINED := Str(UNDEFINED)];
    SentinelsAreFixed();
    hide EscapeFieldName, EscapeIDOrValue, UNDEFINED;
    assert EscapeFieldName(UNDEFINED) in w;
    forall k | k in w ensures k == UNDEFINED && w[k] == Str(UNDEFINED) {
      assert ComesFrom(Obj(kept), k, w[k]);
      EscapedString(UNDEFINED, w[k]);
    }
  }

  /** The data that reaches the validator, if there is any. */
  function Prepared(l: Logger.Logger, group: string, eventID: string, data: Option<map<string, Value>>)
    : Option<map<string, Value>>
  {
    match data case None => None case Some(d) => Some(l.HashedData(group, eventID, d))
  }

  /** The data and the event ID that Track writes for an event that is checked against a scheme: an entry comes from
      a declared field whose rules allow it, or is the undefined-rule pair; the ID is reserved or accepted text. Without
      data a known group writes none, and an unknown one still the undefined-rule pair. */
  lemma TrackedOnWire(
    l: Logger.Logger, group: EventGroup, eventID: string, data: Option<map<string, Value>>, now: Int64,
    checked: Option<LogEvent>, w: LogEvent)
    requires !l.validator.allowAll && checked.Some?
    requires l.IsTracked(group, eventID, data, now, checked, w)
    ensures match FindGroup(l.validator, group.id)
            case None => w.event.data == Some(map[UNDEFINED := Str(UNDEFINED)]) && Reserved(w.event.id)
            case Some(g) =>
              && (w.event.data.Some? <==> data.Some?)
              && (w.event.data.Some? ==>
                    forall k | k in w.event.data.value ::
                      EntryOnWire(l.engine, l.printer, g.eventDataRules,
                                  Prepared(l, group.id, eventID, data).value, k, w.event.data.value[k]))
              && (Reserved(w.event.id) || exists n: nat :: Decides(l.engine, g.eventIDRules, w.event.id, n, Accepted))
  {
    hide Escape, EscapeIDOrValue, IsValidData, EntryOnWire, ValidEventID, Escaped, Reserved, Decides;
    hide Logger.IsEscapedIDs, Logger.Logger.HashedData;
    var g := FindGroup(l.validator, group.id);
    EventIDOnWire(l.engine, eventID, g);
    match g
    case None => UnknownGroupOnWire(w.event.data.value);
    case Some(cg) =>
      if data.Some? {
        DataOnWire(l.engine, l.printer, cg.eventDataRules, Prepared(l, group.id, eventID, data).value,
                   checked.value.event.data.value, w.event.data.value);
      }
  }

  /** Whether the ranges of a group accept an event. */
  ghost predicate IsInRanges(g: CompiledGroup, build: string, version: Int64) {
    && (g.buildRanges == [] || exists r :: r in g.buildRanges && InBuildRange(r, build))
    && (g.versionRanges == [] || exists r :: r in g.versionRanges && InVersionRange(r, version))
  }

  /** Every other field of the event that Track writes, and when it writes one: what the logger and the caller gave,
      the identifiers escaped, the device ID hashed, and counted once. */
  lemma TrackedEventFields(
    l: Logger.Logger, group: EventGroup, eventID: string, data: Option<map<string, Value>>, now: Int64,
    checked: Option<LogEvent>, w: LogEvent)
    requires !l.validator.allowAll && l.IsTracked(group, eventID, data, now, checked, w)
    ensures checked.Some? <==>
            var g := FindGroup(l.validator, group.id); g.None? || IsInRanges(g.value, l.build, group.version)
    ensures checked.Some? ==>
              && w.recorder.id == Escape(l.recorder.id) && w.recorder.version == l.recorder.version
              && w.product == Escape(l.product) && w.build == Escape(l.build)
              && w.internal == l.internal && w.session == l.session && w.bucket == l.bucket && w.time == now
              && w.group.id == Escape(group.id) && w.group.version == group.version && w.group.state == group.state
              && w.event.count == 1 && w.systemData == None && w.clientData == None
              && w.ids == Some(map["device" := EscapeIDOrValue(Anonymize(l.sha, l.salt, l.deviceID))])
              && w.event.id == EscapeIDOrValue(ValidEventID(l.engine, eventID, FindGroup(l.validator, group.id)))
  {
    hide Escape, EscapeIDOrValue, EscapeFieldName, Anonymize, IsValidEventData, ValidEventID, InBuildRange;
    hide InVersionRange, FindGroup, Escaped, Logger.Logger.HashedData, Logger.IsEscapedIDs;
    if checked.Some? {
      DeviceIDOnWire(Anonymize(l.sha, l.salt, l.deviceID), w.ids.value);
    }
  }

  lemma DeviceIDOnWire(id: string, out: map<string, string>)
    requires Logger.IsEscapedIDs(map["device" := id], out)
    ensures out == map["device" := EscapeIDOrValue(id)]
  {
    LowerCaseNameIsKept("device");
    hide EscapeFieldName, EscapeIDOrValue;
    var ids := map["device" := id];
    assert EscapeFieldName("device") in out;
    forall k | k in out ensures k == "device" && out[k] == EscapeIDOrValue(id) {
      assert Logger.IDComesFrom(ids, k, out[k]);
    }
  }

  // ---------- Hashed leaves never show ----------

  function EscapedAccess(a: Access): Access {
    match a
    case Key(k) => Key(EscapeFieldName(k))
    case Index(i) => Index(i)
  }

  /** The way with every key escaped. */
  function EscapedWay(way: seq<Access>): seq<Access> {
    seq(|way|, i requires 0 <= i < |way| => EscapedAccess(way[i]))
  }

  lemma EscapedWayPrepend(a: Access, way: seq<Access>)
    ensures EscapedWay([a] + way) == [EscapedAccess(a)] + EscapedWay(way)
  {
    hide EscapedAccess;
  }

  /** What is found in an escaped value comes from the original value, along a way that escapes to the one taken. */
  lemma {:induction false} EscapedComesFrom(v: Value, x: Value, way: seq<Access>) returns (src: seq<Access>)
    requires Escaped(v, x) && Get(x, way).Some?
    ensures EscapedWay(src) == way && Get(v, src).Some? && Escaped(Get(v, src).value, Get(x, way).value)
    decreases |way|
  {
    hide EscapeFieldName, EscapeIDOrValue, EscapedWay;
    if way == [] {
      src := [];
      assert EscapedWay([]) == [] by { NoWay(); }
    } else {
      var rest := way[1..];
      assert way == [way[0]] + rest;
      match (way[0], v)
      case (Key(k'), Obj(fields)) =>
        var k :| k in fields && EscapeFieldName(k) == k' && Escaped(fields[k], x.fields[k']);
        var tail := EscapedComesFrom(fields[k], x.fields[k'], rest);
        src := [Key(k)] + tail;
        EscapedWayPrepend(Key(k), tail);
        assert src[1..] == tail;
      case (Index(i), List(items)) =>
        var tail := EscapedComesFrom(items[i], x.items[i], rest);
        src := [Index(i)] + tail;
        EscapedWayPrepend(Index(i), tail);
        assert src[1..] == tail;
      case _ => assert false;
    }
  }

  lemma NoWay()
    ensures EscapedWay([]) == []
  {
  }

  function EscapedScalar(v: Scalar): Scalar {
    if v.Str? then Str(EscapeIDOrValue(v.s)) else v
  }

  lemma EscapedIsScalar(v: Value, x: Value)
    requires Escaped(v, x)
    ensures v.IsScalar() <==> x.IsScalar()
    ensures v.IsScalar() ==> x == EscapedScalar(v)
  {
    hide EscapeIDOrValue;
  }

  /** What is written for a leaf with this dotted path: its hash, if the path is one to hash and the leaf is not
      blank. */
  function WrittenLeaf(
    sha: Sha256, salt: string, fields: set<string>, path: string, inList: bool, leaf: Scalar): Scalar
  {
    if path in fields && TrimSpace(ScalarText(leaf)) != "" then Str(Anonymize(sha, salt, ScalarText(leaf)))
    else if leaf == Null && inList then Null
    else EscapedScalar(AnonymizedLeaf(sha, salt, path, leaf, fields))
  }

  lemma HashedThenEscaped(sha: Sha256, salt: string, fields: set<string>, path: string, inList: bool, leaf: Scalar)
    ensures WrittenLeaf(sha, salt, fields, path, inList, leaf) ==
            EscapedScalar(if leaf == Null && inList then Null else AnonymizedLeaf(sha, salt, path, leaf, fields))
  {
    if path in fields && TrimSpace(ScalarText(leaf)) != "" {
      AnonymizedIsHash(sha, salt, ScalarText(leaf));
    }
    hide Anonymize, EscapeIDOrValue, TrimSpace;
  }

  /** The scalar y, written where way leads, is what the leaf at src becomes; or it is a sentinel in place of the
      whole entry at src. */
  predicate IsWrittenFor(
    sha: Sha256, salt: string, fields: set<string>, data: map<string, Value>,
    src: seq<Access>, way: seq<Access>, y: Value)
  {
    && src != [] && src[0].Key? && EscapedWay(src) == way
    && var leaf := Get(Obj(data), src);
       leaf.Some? &&
       (|| (|src| == 1 && (y == Str(UNMATCHED) || y == Str(INCORRECT)))
        || (leaf.value.IsScalar() &&
            y == WrittenLeaf(sha, salt, fields, Dotted(src[0].k, src[1..]), EndsInList(src), leaf.value)))
  }

  ghost predicate ShowsNoSecret(
    sha: Sha256, salt: string, fields: set<string>, data: map<string, Value>, way: seq<Access>, y: Value)
  {
    || (way == [Key(UNDEFINED)] && y == Str(UNDEFINED))
    || exists src :: IsWrittenFor(sha, salt, fields, data, src, way, y)
  }

  lemma CheckedIsEither(en: Engine, printer: Printer, rules: seq<Rule>, raw: Value)
    ensures CheckedValue(en, printer, rules, raw) in {raw, Str(UNMATCHED), Str(INCORRECT)}
  {
    hide Verdict, EscapeIDOrValue, Reserved, TextOf;
  }

  lemma NothingInScalar(x: Scalar, way: seq<Access>)
    requires Get(x, way).Some?
    ensures way == [] && Get(x, way).value == x
  {
  }

  /** An entry that the validator replaced shows its sentinel and nothing else. */
  lemma SentinelShown(s: string, x: Value, way: seq<Access>)
    requires Escaped(Str(s), x) && EscapeIDOrValue(s) == s && Get(x, way).Some?
    ensures way == [] && x == Str(s) == Get(x, way).value
  {
    hide EscapeIDOrValue, Get;
    EscapedString(s, x);
    NothingInScalar(x, way);
  }

  /** An entry of the data that the validator kept. */
  lemma KeptShowsNoSecret(
    sha: Sha256, salt: string, fields: set<string>, data: map<string, Value>, key: string, x: Value,
    way: seq<Access>, y: Value)
    requires key in data && Escaped(Anonymized(sha, salt, key, data[key], fields), x)
    requires Get(x, way) == Some(y) && y.IsScalar()
    ensures ShowsNoSecret(sha, salt, fields, data, [Key(EscapeFieldName(key))] + way, y)
  {
    hide Anonymized, WrittenLeaf, AnonymizedLeaf, EscapedWay, EscapeFieldName, Escaped, EscapedScalar;
    var h := Anonymized(sha, salt, key, data[key], fields);
    var tail := EscapedComesFrom(h, x, way);
    EscapedIsScalar(Get(h, tail).value, y);
    EachLeafIsHashedOnce(sha, salt, key, data[key], fields, tail);
    var leaf := Get(data[key], tail).value;
    HashedThenEscaped(sha, salt, fields, Dotted(key, tail), EndsInList(tail), leaf);
    LeafIsWritten(sha, salt, fields, data, key, tail, leaf);
    EscapedWayPrepend(Key(key), tail);
    assert ShowsNoSecret(sha, salt, fields, data, [Key(EscapeFieldName(key))] + way, y) by {
      hide IsWrittenFor;
      assert IsWrittenFor(sha, salt, fields, data, [Key(key)] + tail, [EscapedAccess(Key(key))] + way, y);
      assert EscapedAccess(Key(key)) == Key(EscapeFieldName(key));
    }
  }

  lemma LeafIsWritten(
    sha: Sha256, salt: string, fields: set<string>, data: map<string, Value>,
    key: string, tail: seq<Access>, leaf: Scalar)
    requires key in data && Get(data[key], tail) == Some(leaf)
    ensures IsWrittenFor(sha, salt, fields, data, [Key(key)] + tail, EscapedWay([Key(key)] + tail),
                         WrittenLeaf(sha, salt, fields, Dotted(key, tail), EndsInList(tail), leaf))
  {
    hide WrittenLeaf, EscapedWay, Dotted;
    var src := [Key(key)] + tail;
    assert src[1..] == tail && EndsInList(src) == EndsInList(tail);
  }

  lemma EntryIsReplaced(
    sha: Sha256, salt: string, fields: set<string>, data: map<string, Value>, key: string, y: Value)
    requires key in data && (y == Str(UNMATCHED) || y == Str(INCORRECT))
    ensures ShowsNoSecret(sha, salt, fields, data, [Key(EscapeFieldName(key))], y)
  {
    hide WrittenLeaf, EscapeFieldName, UNMATCHED, INCORRECT, UNDEFINED;
    var src := [Key(key)];
    assert src[1..] == [] && EscapedWay(src) == [Key(EscapeFieldName(key))];
    assert Get(Obj(data), src) == Some(data[key]);
    assert IsWrittenFor(sha, salt, fields, data, src, [Key(EscapeFieldName(key))], y);
  }

  /** One entry of the data, hashed, checked and escaped. */
  lemma EntryShowsNoSecret(
    en: Engine, printer: Printer, rules: seq<Rule>, sha: Sha256, salt: string, fields: set<string>,
    data: map<string, Value>, key: string, x: Value, way: seq<Access>, y: Value)
    requires key in data
    requires Escaped(CheckedValue(en, printer, rules, Anonymized(sha, salt, key, data[key], fields)), x)
    requires Get(x, way) == Some(y) && y.IsScalar()
    ensures ShowsNoSecret(sha, salt, fields, data, [Key(EscapeFieldName(key))] + way, y)
  {
    hide CheckedValue, Anonymized, EscapeFieldName, Escaped, Get, ShowsNoSecret, UNMATCHED, INCORRECT;
    var h := Anonymized(sha, salt, key, data[key], fields);
    if CheckedValue(en, printer, rules, h) == h {
      KeptShowsNoSecret(sha, salt, fields, data, key, x, way, y);
    } else {
      ReplacedShown(en, printer, rules, h, x, way, y);
      EntryIsReplaced(sha, salt, fields, data, key, y);
      assert [Key(EscapeFieldName(key))] + [] == [Key(EscapeFieldName(key))];
    }
  }

  lemma ReplacedShown(en: Engine, printer: Printer, rules: seq<Rule>, h: Value, x: Value, way: seq<Access>, y: Value)
    requires CheckedValue(en, printer, rules, h) != h && Escaped(CheckedValue(en, printer, rules, h), x)
    requires Get(x, way) == Some(y)
    ensures way == [] && (y == Str(UNMATCHED) || y == Str(INCORRECT))
  {
    CheckedIsEither(en, printer, rules, h);
    SentinelsAreFixed();
    hide CheckedValue, Escaped, Get, UNMATCHED, INCORRECT, UNDEFINED, EscapeIDOrValue, EscapeFieldName;
    if CheckedValue(en, printer, rules, h) == Str(UNMATCHED) {
      SentinelShown(UNMATCHED, x, way);
    } else {
      SentinelShown(INCORRECT, x, way);
    }
  }

  /** Track never writes a leaf that is to be hashed, if it is not blank. Every scalar that is found anywhere in the
      written data is what some leaf of the caller's data becomes: its hash if its dotted path is one to hash, else
      its escaped value; or it is a sentinel that stands for a whole entry. This holds whatever rules the scheme
      gives, and when keys escape alike. */
  lemma TrackedShowsNoSecret(
    l: Logger.Logger, group: EventGroup, eventID: string, data: map<string, Value>, now: Int64,
    checked: Option<LogEvent>, w: LogEvent, way: seq<Access>)
    requires l.anonymizer.Some? && !l.validator.allowAll && checked.Some?
    requires l.IsTracked(group, eventID, Some(data), now, checked, w)
    ensures w.event.data.Some?
    ensures var a, y := l.anonymizer.value, Get(Obj(w.event.data.value), way);
            y.Some? && y.value.IsScalar() ==>
              ShowsNoSecret(l.sha, a.salt, FieldsFor(a, group.id, eventID), data, way, y.value)
  {
    hide Escape, EscapeIDOrValue, EscapeFieldName, ValidEventID, Logger.IsEscapedIDs, FieldsFor, Get, ShowsNoSecret;
    hide IsValidData, Escaped, Logger.Logger.HashedData;
    var out, a := w.event.data.value, l.anonymizer.value;
    var y := Get(Obj(out), way);
    if y.Some? && y.value.IsScalar() {
      var k, rest := EntryOf(out, way);
      match FindGroup(l.validator, group.id)
      case None =>
        UnknownGroupOnWire(out);
        UndefinedShown(l.sha, a.salt, FieldsFor(a, group.id, eventID), data, rest, y.value);
      case Some(g) =>
        EntriesShowNoSecret(l, group.id, eventID, g.eventDataRules, data, checked.value.event.data.value, out, k, rest,
                            y.value);
    }
  }

  lemma EntryOf(out: map<string, Value>, way: seq<Access>) returns (k: string, rest: seq<Access>)
    requires Get(Obj(out), way).Some? && Get(Obj(out), way).value.IsScalar()
    ensures way == [Key(k)] + rest && k in out && Get(out[k], rest) == Get(Obj(out), way)
  {
    k, rest := way[0].k, way[1..];
  }

  lemma UndefinedShown(
    sha: Sha256, salt: string, fields: set<string>, data: map<string, Value>, rest: seq<Access>, y: Value)
    requires Get(Str(UNDEFINED), rest) == Some(y)
    ensures ShowsNoSecret(sha, salt, fields, data, [Key(UNDEFINED)] + rest, y)
  {
    NothingInScalar(Str(UNDEFINED), rest);
    hide UNDEFINED, IsWrittenFor;
    assert [Key(UNDEFINED)] + [] == [Key(UNDEFINED)];
  }

  lemma EntriesShowNoSecret(
    l: Logger.Logger, group: string, eventID: string, rules: map<string, seq<Rule>>, data: map<string, Value>,
    kept: map<string, Value>, out: map<string, Value>, k: string, rest: seq<Access>, y: Value)
    requires l.anonymizer.Some?
    requires IsValidData(l.engine, l.printer, rules, l.HashedData(group, eventID, data), kept)
    requires Escaped(Obj(kept), Obj(out)) && k in out && Get(out[k], rest) == Some(y) && y.IsScalar()
    ensures var a := l.anonymizer.value;
            ShowsNoSecret(l.sha, a.salt, FieldsFor(a, group, eventID), data, [Key(k)] + rest, y)
  {
    hide EscapeIDOrValue, EscapeFieldName, CheckedValue, FieldsFor, Anonymized, ShowsNoSecret, Get;
    assert ComesFrom(Obj(kept), k, out[k]);
    var j :| j in kept && EscapeFieldName(j) == k && Escaped(kept[j], out[k]);
    var key := SourceOf(l.engine, l.printer, rules, l.HashedData(group, eventID, data), j, kept[j]);
    var a := l.anonymizer.value;
    if key in rules {
      EntryShowsNoSecret(l.engine, l.printer, rules[key], l.sha, a.salt, FieldsFor(a, group, eventID), data, key,
                         out[k], rest, y);
    } else {
      SentinelsAreFixed();
      SentinelShown(UNDEFINED, out[k], rest);
      UndefinedShown(l.sha, a.salt, FieldsFor(a, group, eventID), data, rest, y);
    }
  }
}
