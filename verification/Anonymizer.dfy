/** Hashing the declared fields of an event's data in place (anonymizer.go). */
module Anonymizer {
  import opened Basics
  import opened GoStrings
  import opened Events
  import opened Device
  import opened HeapData
  import Scheme

  /** For each group ID and event ID, the fields to hash. */
  type FieldTable = map<(string, string), set<string>>

  datatype Anonymizer = Anonymizer(salt: string, fields: FieldTable)

  // ---------- Which fields ----------

  function WithField(table: FieldTable, group: string, af: Scheme.AnonymizedField): FieldTable {
    if af.event == "" || af.fields == [] then table else table[(group, af.event) := set f | f in af.fields]
  }

  function WithFields(table: FieldTable, group: string, afs: seq<Scheme.AnonymizedField>): FieldTable {
    if afs == [] then table
    else WithField(WithFields(table, group, afs[..|afs| - 1]), group, afs[|afs| - 1])
  }

  function TableOf(groups: seq<Scheme.GroupSchema>): FieldTable {
    if groups == [] then map[]
    else
      var g := groups[|groups| - 1];
      WithFields(TableOf(groups[..|groups| - 1]), g.id, g.anonymizedFields)
  }

  function AnonymizerOf(s: Scheme.Scheme, salt: string): Anonymizer {
    Anonymizer(salt, TableOf(s.groups))
  }

  method NewAnonymizer(s: Option<Scheme.Scheme>, salt: string) returns (a: Anonymizer)
    ensures a == if s.None? then Anonymizer(salt, map[]) else AnonymizerOf(s.value, salt)
  {
    var table: FieldTable := map[];
    if s.None? {
      return Anonymizer(salt, table);
    }
    var groups := s.value.groups;
    for i := 0 to |groups|
      invariant table == TableOf(groups[..i])
    {
      ghost var before := table;
      var afs := groups[i].anonymizedFields;
      for j := 0 to |afs|
        invariant table == WithFields(before, groups[i].id, afs[..j])
      {
        assert afs[..j + 1][..j] == afs[..j];
        if afs[j].event == "" || |afs[j].fields| == 0 {
          continue;
        }
        table := table[(groups[i].id, afs[j].event) := set f | f in afs[j].fields];
      }
      assert afs[..|afs|] == afs && groups[..i + 1][..i] == groups[..i];
    }
    assert groups[..|groups|] == groups;
    a := Anonymizer(salt, table);
  }

  /** Nothing from position n on declares fields for the event. */
  predicate NoneFrom(afs: seq<Scheme.AnonymizedField>, n: int, event: string) {
    forall j | 0 <= j < |afs| && n <= j :: afs[j].event != event || afs[j].fields == []
  }

  lemma {:induction false} NoneAdded(table: FieldTable, group: string, afs: seq<Scheme.AnonymizedField>, event: string)
    requires NoneFrom(afs, 0, event)
    ensures var key, out := (group, event), WithFields(table, group, afs);
            (key in out <==> key in table) && (key in table ==> out[key] == table[key])
  {
    if afs != [] {
      NoneAdded(table, group, afs[..|afs| - 1], event);
    }
  }

  lemma {:induction false} LastAdded(
    table: FieldTable, group: string, afs: seq<Scheme.AnonymizedField>, n: nat, event: string)
    requires n < |afs| && afs[n].event == event && event != "" && afs[n].fields != [] && NoneFrom(afs, n + 1, event)
    ensures var key, out := (group, event), WithFields(table, group, afs);
            key in out && out[key] == set f | f in afs[n].fields
  {
    if n < |afs| - 1 {
      LastAdded(table, group, afs[..|afs| - 1], n, event);
    }
  }

  lemma {:induction false} OthersAreKept(
    table: FieldTable, group: string, afs: seq<Scheme.AnonymizedField>, other: string, event: string)
    requires other != group
    ensures var key, out := (other, event), WithFields(table, group, afs);
            (key in out <==> key in table) && (key in table ==> out[key] == table[key])
  {
    if afs != [] {
      OthersAreKept(table, group, afs[..|afs| - 1], other, event);
    }
  }

  /** The fields of an event are those of its last non-empty declaration in the scheme, and there are none for an event
      that is not declared with fields, or has no ID. */
  lemma {:induction false} LastDeclarationCounts(
    groups: seq<Scheme.GroupSchema>, i: nat, n: nat, event: string)
    requires i < |groups| && n < |groups[i].anonymizedFields| && event != ""
    requires groups[i].anonymizedFields[n].event == event && groups[i].anonymizedFields[n].fields != []
    requires NoneFrom(groups[i].anonymizedFields, n + 1, event)
    requires forall j | i < j < |groups| && groups[j].id == groups[i].id ::
               NoneFrom(groups[j].anonymizedFields, 0, event)
    ensures var key := (groups[i].id, event);
            key in TableOf(groups) && TableOf(groups)[key] == set f | f in groups[i].anonymizedFields[n].fields
  {
    hide WithFields, NoneFrom;
    var front, g := groups[..|groups| - 1], groups[|groups| - 1];
    if i < |groups| - 1 {
      LastDeclarationCounts(front, i, n, event);
      if g.id == groups[i].id {
        NoneAdded(TableOf(front), g.id, g.anonymizedFields, event);
      } else {
        OthersAreKept(TableOf(front), g.id, g.anonymizedFields, groups[i].id, event);
      }
    } else {
      LastAdded(TableOf(front), g.id, g.anonymizedFields, n, event);
    }
  }

  lemma {:induction false} UndeclaredHasNone(groups: seq<Scheme.GroupSchema>, group: string, event: string)
    requires event == "" ||
             forall j | 0 <= j < |groups| && groups[j].id == group :: NoneFrom(groups[j].anonymizedFields, 0, event)
    ensures (group, event) !in TableOf(groups)
  {
    hide WithFields, NoneFrom;
    if groups != [] {
      var front, g := groups[..|groups| - 1], groups[|groups| - 1];
      UndeclaredHasNone(front, group, event);
      if event == "" {
        NoneWithoutID(TableOf(front), g.id, g.anonymizedFields, group);
      } else if g.id == group {
        NoneAdded(TableOf(front), g.id, g.anonymizedFields, event);
      } else {
        OthersAreKept(TableOf(front), g.id, g.anonymizedFields, group, event);
      }
    }
  }

  lemma {:induction false} NoneWithoutID(
    table: FieldTable, group: string, afs: seq<Scheme.AnonymizedField>, other: string)
    requires (other, "") !in table
    ensures (other, "") !in WithFields(table, group, afs)
  {
    if afs != [] {
      NoneWithoutID(table, group, afs[..|afs| - 1], other);
    }
  }

  // ---------- What happens to a value ----------

  /** The specification, on values: every leaf whose dotted path is declared is hashed, except nulls in lists. */
  function Anonymized(sha: Sha256, salt: string, key: string, v: Value, fields: set<string>): Value
    decreases v, 0
  {
    match v
    case Obj(m) => Obj(map k | k in m :: Anonymized(sha, salt, key + "." + k, m[k], fields))
    case List(items) =>
      List(seq(|items|, i requires 0 <= i < |items| => AnonymizedItem(sha, salt, key, items[i], fields)))
    case _ => AnonymizedLeaf(sha, salt, key, v, fields)
  }

  function AnonymizedItem(sha: Sha256, salt: string, key: string, item: Value, fields: set<string>): Value
    decreases item, 1
  {
    if item == Null then Null else Anonymized(sha, salt, key, item, fields)
  }

  function AnonymizedLeaf(sha: Sha256, salt: string, key: string, v: Scalar, fields: set<string>): Scalar {
    if key in fields then Str(Anonymize(sha, salt, ScalarText(v))) else v
  }

  function AnonymizedData(sha: Sha256, salt: string, data: map<string, Value>, fields: set<string>)
    : map<string, Value>
  {
    map k | k in data :: Anonymized(sha, salt, k, data[k], fields)
  }

  // ---------- Leaf by leaf ----------

  /** A way into a value: by the key of an object, or by the index of a list. */
  datatype Access = Key(k: string) | Index(i: nat)

  /** The dotted path that a way spells; indices do not count. */
  function Dotted(key: string, way: seq<Access>): string
    decreases |way|
  {
    if way == [] then key
    else
      match way[0]
      case Key(k) => Dotted(key + "." + k, way[1..])
      case Index(_) => Dotted(key, way[1..])
  }

  /** The keys on a way, in order. */
  function KeysOn(way: seq<Access>): seq<string> {
    if way == [] then []
    else
      match way[0]
      case Key(k) => [k] + KeysOn(way[1..])
      case Index(_) => KeysOn(way[1..])
  }

  /** A dotted path is the keys with dots between. */
  lemma {:induction false} DottedMeaning(key: string, way: seq<Access>)
    ensures Dotted(key, way) == Join([key] + KeysOn(way), '.')
    decreases |way|
  {
    if way != [] {
      match way[0]
      case Key(k) =>
        DottedMeaning(key + "." + k, way[1..]);
        JoinTwoFirst(key, k, KeysOn(way[1..]));
        assert [key] + ([k] + KeysOn(way[1..])) == [key, k] + KeysOn(way[1..]);
      case Index(_) => DottedMeaning(key, way[1..]);
    }
  }

  lemma JoinTwoFirst(a: string, b: string, rest: seq<string>)
    ensures Join([a + "." + b] + rest, '.') == Join([a, b] + rest, '.')
  {
    assert ([a, b] + rest)[1..] == [b] + rest;
    assert ([b] + rest)[1..] == rest && ([a + "." + b] + rest)[1..] == rest;
    if rest != [] {
      assert a + "." + (b + "." + Join(rest, '.')) == a + "." + b + "." + Join(rest, '.');
    }
  }

  function Get(v: Value, way: seq<Access>): Option<Value> {
    if way == [] then Some(v)
    else
      match (way[0], v)
      case (Key(k), Obj(m)) => if k in m then Get(m[k], way[1..]) else None
      case (Index(i), List(items)) => if i < |items| then Get(items[i], way[1..]) else None
      case _ => None
  }

  predicate EndsInList(way: seq<Access>) {
    way != [] && way[|way| - 1].Index?
  }

  /** Every leaf is hashed once if its dotted path is declared, and otherwise kept; nothing else changes. */
  lemma {:induction false} EachLeafIsHashedOnce(
    sha: Sha256, salt: string, key: string, v: Value, fields: set<string>, way: seq<Access>)
    ensures var leaf, out := Get(v, way), Get(Anonymized(sha, salt, key, v, fields), way);
            && (leaf.None? <==> out.None?)
            && (leaf.Some? ==> (leaf.value.IsScalar() <==> out.value.IsScalar()))
            && (leaf.Some? && leaf.value.IsScalar() ==>
                  out.value == if leaf.value == Null && EndsInList(way) then Null
                               else AnonymizedLeaf(sha, salt, Dotted(key, way), leaf.value, fields))
    decreases |way|
  {
    hide AnonymizedLeaf;
    if way != [] {
      var rest := way[1..];
      assert rest != [] ==> rest[|rest| - 1] == way[|way| - 1];
      match (way[0], v)
      case (Key(k), Obj(m)) =>
        if k in m {
          EachLeafIsHashedOnce(sha, salt, key + "." + k, m[k], fields, rest);
        }
      case (Index(i), List(items)) =>
        if i < |items| && items[i] != Null {
          EachLeafIsHashedOnce(sha, salt, key, items[i], fields, rest);
        }
      case _ =>
    }
  }

  // ---------- In place ----------

  /** The entries of a map, each with its specified value. */
  lemma ObjIsAnonymized(
    sha: Sha256, salt: string, key: string, fields: set<string>, m: map<string, Value>, out: map<string, Value>)
    requires out.Keys == m.Keys
    requires forall k | k in m :: out[k] == Anonymized(sha, salt, key + "." + k, m[k], fields)
    ensures Obj(out) == Anonymized(sha, salt, key, Obj(m), fields)
  {
    assert out == map k | k in m :: Anonymized(sha, salt, key + "." + k, m[k], fields);
  }

  lemma DataIsAnonymized(
    sha: Sha256, salt: string, fields: set<string>, data: map<string, Value>, out: map<string, Value>)
    requires out.Keys == data.Keys
    requires forall k | k in data :: out[k] == Anonymized(sha, salt, k, data[k], fields)
    ensures out == AnonymizedData(sha, salt, data, fields)
  {
    hide Anonymized;
  }

  lemma KidIsDone(sha: Sha256, salt: string, prefix: string, fields: set<string>, u: Shape, t: Shape, k: string)
    requires u.MapShape? && t.MapShape? && KidsDone(sha, salt, prefix, fields, u.kids, t.kids, {})
    ensures u.kids.Keys == t.kids.Keys
    ensures k in t.kids ==> u.kids[k].Content() == Anonymized(sha, salt, prefix + k, t.kids[k].Content(), fields)
  {
    hide Anonymized, Shape.Content;
  }

  /** When every entry of a nested map is done, so is the map. */
  lemma MapDone(sha: Sha256, salt: string, key: string, fields: set<string>, u: Shape, t: Shape)
    requires u.MapShape? && t.MapShape? && KidsDone(sha, salt, key + ".", fields, u.kids, t.kids, {})
    ensures u.Content() == Anonymized(sha, salt, key, t.Content(), fields)
  {
    MapContent(u);
    MapContent(t);
    hide Shape.Content, Anonymized, KidsDone;
    KidIsDone(sha, salt, key + ".", fields, u, t, "");
    var m, out := t.Content().fields, u.Content().fields;
    forall k | k in m ensures out[k] == Anonymized(sha, salt, key + "." + k, m[k], fields) {
      KidIsDone(sha, salt, key + ".", fields, u, t, k);
    }
    ObjIsAnonymized(sha, salt, key, fields, m, out);
  }

  lemma ListDone(sha: Sha256, salt: string, key: string, fields: set<string>, u: Shape, t: Shape)
    requires u.ListShape? && t.ListShape? && ElemsDone(sha, salt, key, fields, u.elems, t.elems, |t.elems|)
    ensures u.Content() == Anonymized(sha, salt, key, t.Content(), fields)
  {
    ListContent(u);
    ListContent(t);
    hide Shape.Content;
    assert u.Content().items == Anonymized(sha, salt, key, t.Content(), fields).items;
  }

  lemma LeafDone(sha: Sha256, salt: string, key: string, fields: set<string>, v: Scalar)
    ensures ScalarShape(AnonymizedLeaf(sha, salt, key, v, fields)).Content() ==
            Anonymized(sha, salt, key, ScalarShape(v).Content(), fields)
  {
  }

  /** A map that lies on the heap as a tree. */
  ghost predicate TreeAt(v: Any, t: Shape)
    reads t.Objs()
  {
    Represents(v, t) && IsTree(t)
  }

  /** What the entries became that are done; the others are as before. */
  ghost predicate KidsDone(
    sha: Sha256, salt: string, prefix: string, fields: set<string>,
    kids: map<string, Shape>, from: map<string, Shape>, todo: set<string>)
  {
    && kids.Keys == from.Keys
    && (forall k | k in kids :: kids[k].Objs() == from[k].Objs())
    && (forall k | k in kids && k in todo :: kids[k] == from[k])
    && (forall k | k in kids && k !in todo ::
          kids[k].Content() == Anonymized(sha, salt, prefix + k, from[k].Content(), fields))
  }

  lemma NoKidDone(sha: Sha256, salt: string, prefix: string, fields: set<string>, from: map<string, Shape>)
    ensures KidsDone(sha, salt, prefix, fields, from, from, from.Keys)
  {
  }

  lemma KidToDo(sha: Sha256, salt: string, prefix: string, fields: set<string>,
                kids: map<string, Shape>, from: map<string, Shape>, todo: set<string>, k: string)
    requires KidsDone(sha, salt, prefix, fields, kids, from, todo) && k in todo && k in from
    ensures k in kids && kids[k] == from[k]
  {
  }

  lemma OneMoreKidDone(sha: Sha256, salt: string, prefix: string, fields: set<string>,
                       kids: map<string, Shape>, after: map<string, Shape>, from: map<string, Shape>,
                       todo: set<string>, k: string)
    requires KidsDone(sha, salt, prefix, fields, kids, from, todo) && k in todo && k in from
    requires after.Keys == kids.Keys && after[k].Objs() == kids[k].Objs()
    requires forall j | j in kids && j != k :: after[j] == kids[j]
    requires after[k].Content() == Anonymized(sha, salt, prefix + k, from[k].Content(), fields)
    ensures KidsDone(sha, salt, prefix, fields, after, from, todo - {k})
  {
    hide Anonymized;
  }

  /** Replaces the leaves of a map's entries; prefix stands before each entry's key. */
  method AnonymizeEntries(
    sha: Sha256, salt: string, prefix: string, m: MapObj, fields: set<string>, ghost t: Shape)
    returns (ghost u: Shape)
    requires t.MapShape? && TreeAt(MapRef(m), t)
    modifies t.Objs()
    ensures u.MapShape? && u.m == m && u.Objs() == t.Objs() && TreeAt(MapRef(m), u)
    ensures KidsDone(sha, salt, prefix, fields, u.kids, t.kids, {})
    decreases t, 0
  {
    hide Anonymized, KidsDone, IsTree;
    u := t;
    var todo := m.entries.Keys;
    assert KidsDone(sha, salt, prefix, fields, u.kids, t.kids, todo) by {
      NoKidDone(sha, salt, prefix, fields, t.kids);
    }
    while todo != {}
      invariant todo <= t.kids.Keys && m.entries.Keys == t.kids.Keys
      invariant u.MapShape? && u.m == m && u.Objs() == t.Objs() && TreeAt(MapRef(m), u)
      invariant KidsDone(sha, salt, prefix, fields, u.kids, t.kids, todo)
    {
      var k :| k in todo;
      ghost var before := u;
      KidToDo(sha, salt, prefix, fields, u.kids, t.kids, todo, k);
      u := AnonymizeEntry(sha, salt, prefix, m, k, fields, u);
      OneMoreKidDone(sha, salt, prefix, fields, before.kids, u.kids, t.kids, todo, k);
      todo := todo - {k};
    }
  }

  /** All entries but those in skip lie on the heap as kids says, apart from each other. */
  ghost predicate KidsInPlace(
    entries: map<string, Any>, kids: map<string, Shape>, objs: set<object>, skip: set<string>)
    reads objs
  {
    && entries.Keys == kids.Keys && ApartKids(kids)
    && forall j | j in kids && j !in skip ::
      kids[j].Objs() <= objs && Represents(entries[j], kids[j]) && IsTree(kids[j])
  }

  lemma ReplaceKid(m: MapObj, t: Shape, k: string, kid: Shape)
    requires t.MapShape? && m in t.objs && k in t.kids && k in m.entries && KidsInPlace(m.entries, t.kids, t.objs, {k})
    requires forall j | j in t.kids :: m !in t.kids[j].Objs() && t.kids[j].Objs() <= t.objs
    requires kid.Objs() == t.kids[k].Objs() && Represents(m.entries[k], kid) && IsTree(kid)
    ensures TreeAt(MapRef(m), MapShape(m, t.kids[k := kid], t.objs))
  {
    var kids := t.kids[k := kid];
    ApartReplaced(t.kids, k, kid);
    assert kids.Keys == t.kids.Keys;
    hide ApartKids;
    forall j | j in kids ensures kids[j].Objs() <= t.objs && m !in kids[j].Objs() {
    }
    forall j | j in kids ensures Represents(m.entries[j], kids[j]) && IsTree(kids[j]) {
    }
  }

  lemma ApartReplaced(kids: map<string, Shape>, k: string, kid: Shape)
    requires ApartKids(kids) && k in kids && kid.Objs() == kids[k].Objs()
    ensures ApartKids(kids[k := kid])
  {
    var u := kids[k := kid];
    forall i, j | i in u && j in u && i != j ensures u[i].Objs() !! u[j].Objs() {
      assert u[i].Objs() == kids[i].Objs() && u[j].Objs() == kids[j].Objs();
    }
  }

  /** One turn of the loop. */
  method AnonymizeEntry(
    sha: Sha256, salt: string, prefix: string, m: MapObj, k: string, fields: set<string>, ghost t: Shape)
    returns (ghost u: Shape)
    requires t.MapShape? && TreeAt(MapRef(m), t) && k in m.entries
    modifies t.Objs()
    ensures u.MapShape? && u.m == m && u.Objs() == t.Objs() && TreeAt(MapRef(m), u)
    ensures u.kids.Keys == t.kids.Keys && u.kids[k].Objs() == t.kids[k].Objs()
    ensures forall j | j in t.kids && j != k :: u.kids[j] == t.kids[j]
    ensures u.kids[k].Content() == Anonymized(sha, salt, prefix + k, t.kids[k].Content(), fields)
    decreases t.kids[k], 2
  {
    var r, kid := AnonymizeValue(sha, salt, prefix + k, m.entries[k], fields, t.kids[k]);
    assert KidsInPlace(m.entries, t.kids, t.objs, {k});
    m.entries := m.entries[k := r];
    u := MapShape(m, t.kids[k := kid], t.objs);
    ReplaceKid(m, t, k, kid);
  }

  method AnonymizeValue(sha: Sha256, salt: string, key: string, v: Any, fields: set<string>, ghost t: Shape)
    returns (r: Any, ghost u: Shape)
    requires TreeAt(v, t)
    modifies t.Objs()
    ensures u.Objs() == t.Objs() && TreeAt(r, u)
    ensures u.Content() == Anonymized(sha, salt, key, t.Content(), fields)
    decreases t, 1
  {
    hide Anonymized, KidsDone, ElemsDone, Shape.Content, IsTree;
    match v
    case MapRef(m) =>
      u := AnonymizeEntries(sha, salt, key + ".", m, fields, t);
      r := v;
      MapDone(sha, salt, key, fields, u, t);
    case ListRef(l) =>
      u := AnonymizeItems(sha, salt, key, l, fields, t);
      r := v;
      ListDone(sha, salt, key, fields, u, t);
    case Leaf(s) =>
      LeafDone(sha, salt, key, fields, s);
      if key in fields {
        r := Leaf(Str(Anonymize(sha, salt, ScalarText(s))));
        u := ScalarShape(Str(Anonymize(sha, salt, ScalarText(s))));
        ScalarIsTree(Str(Anonymize(sha, salt, ScalarText(s))));
      } else {
        r, u := v, t;
      }
  }

  lemma ScalarIsTree(v: Scalar)
    ensures TreeAt(Leaf(v), ScalarShape(v))
  {
  }

  ghost predicate ElemsDone(
    sha: Sha256, salt: string, key: string, fields: set<string>, elems: seq<Shape>, from: seq<Shape>, n: nat)
  {
    && |elems| == |from| && n <= |from|
    && (forall i | 0 <= i < |from| :: elems[i].Objs() == from[i].Objs())
    && (forall i | n <= i < |from| :: elems[i] == from[i])
    && (forall i | 0 <= i < n :: elems[i].Content() == AnonymizedItem(sha, salt, key, from[i].Content(), fields))
  }

  method AnonymizeItems(sha: Sha256, salt: string, key: string, l: ListObj, fields: set<string>, ghost t: Shape)
    returns (ghost u: Shape)
    requires t.ListShape? && TreeAt(ListRef(l), t)
    modifies t.Objs()
    ensures u.ListShape? && u.l == l && u.Objs() == t.Objs() && TreeAt(ListRef(l), u)
    ensures ElemsDone(sha, salt, key, fields, u.elems, t.elems, |t.elems|)
    decreases t, 0
  {
    u := t;
    var i := 0;
    while i < |l.items|
      invariant u.ListShape? && u.l == l && u.Objs() == t.Objs() && TreeAt(ListRef(l), u)
      invariant ElemsDone(sha, salt, key, fields, u.elems, t.elems, i)
    {
      assert Represents(l.items[i], u.elems[i]);
      if l.items[i] != Leaf(Null) {
        u := AnonymizeElem(sha, salt, key, l, i, fields, u);
      }
      i := i + 1;
    }
  }

  method AnonymizeElem(
    sha: Sha256, salt: string, key: string, l: ListObj, i: nat, fields: set<string>, ghost t: Shape)
    returns (ghost u: Shape)
    requires t.ListShape? && TreeAt(ListRef(l), t) && i < |l.items|
    modifies t.Objs()
    ensures u.ListShape? && u.l == l && u.Objs() == t.Objs() && TreeAt(ListRef(l), u)
    ensures |u.elems| == |t.elems| && u.elems[i].Objs() == t.elems[i].Objs()
    ensures forall j | 0 <= j < |t.elems| && j != i :: u.elems[j] == t.elems[j]
    ensures u.elems[i].Content() == Anonymized(sha, salt, key, t.elems[i].Content(), fields)
    decreases t.elems[i], 2
  {
    var r, elem := AnonymizeValue(sha, salt, key, l.items[i], fields, t.elems[i]);
    l.items := l.items[i := r];
    u := ListShape(l, t.elems[i := elem], t.objs);
  }

  // ---------- A whole event ----------

  function FieldsFor(a: Anonymizer, group: string, event: string): set<string> {
    if (group, event) in a.fields then a.fields[(group, event)] else {}
  }

  lemma {:induction false} NothingToHash(sha: Sha256, salt: string, key: string, v: Value)
    ensures Anonymized(sha, salt, key, v, {}) == v
    decreases v
  {
    match v
    case Obj(m) =>
      forall k | k in m ensures Anonymized(sha, salt, key + "." + k, m[k], {}) == m[k] {
        NothingToHash(sha, salt, key + "." + k, m[k]);
      }
      assert (map k | k in m :: Anonymized(sha, salt, key + "." + k, m[k], {})) == m;
    case List(items) =>
      forall i | 0 <= i < |items| ensures AnonymizedItem(sha, salt, key, items[i], {}) == items[i] {
        NothingToHash(sha, salt, key, items[i]);
      }
    case _ =>
  }

  /** Without fields to hash, the data stays as it is. */
  lemma NothingToHashInData(sha: Sha256, salt: string, data: map<string, Value>)
    ensures AnonymizedData(sha, salt, data, {}) == data
  {
    hide Anonymized;
    forall k | k in data ensures Anonymized(sha, salt, k, data[k], {}) == data[k] {
      NothingToHash(sha, salt, k, data[k]);
    }
  }

  lemma TopKidIsDone(sha: Sha256, salt: string, fields: set<string>, u: Shape, t: Shape, k: string)
    requires u.MapShape? && t.MapShape? && KidsDone(sha, salt, "", fields, u.kids, t.kids, {}) && k in t.kids
    ensures k in u.kids && u.kids[k].Content() == Anonymized(sha, salt, k, t.kids[k].Content(), fields)
  {
    hide Anonymized, Shape.Content, KidsDone;
    KidIsDone(sha, salt, "", fields, u, t, k);
    assert "" + k == k;
  }

  /** When every entry is done, so is the data. */
  lemma AllDone(sha: Sha256, salt: string, fields: set<string>, u: Shape, t: Shape)
    requires u.MapShape? && t.MapShape? && KidsDone(sha, salt, "", fields, u.kids, t.kids, {})
    ensures u.Content() == Obj(AnonymizedData(sha, salt, t.Content().fields, fields))
  {
    MapContent(u);
    MapContent(t);
    hide Shape.Content, Anonymized, KidsDone, AnonymizedData;
    KidIsDone(sha, salt, "", fields, u, t, "");
    var data, out := t.Content().fields, u.Content().fields;
    forall k | k in data ensures out[k] == Anonymized(sha, salt, k, data[k], fields) {
      TopKidIsDone(sha, salt, fields, u, t, k);
    }
    DataIsAnonymized(sha, salt, fields, data, out);
  }

  lemma NoFieldsFor(a: Anonymizer, group: string, event: string)
    requires |a.fields| == 0 || (group, event) !in a.fields || |a.fields[(group, event)]| == 0
    ensures FieldsFor(a, group, event) == {}
  {
  }

  /** Hashes the fields that are declared for the event; without any, the data is left alone. */
  method AnonymizeEvent(sha: Sha256, a: Anonymizer, group: string, event: string, data: MapObj, ghost t: Shape)
    returns (ghost u: Shape)
    requires t.MapShape? && TreeAt(MapRef(data), t)
    modifies t.Objs()
    ensures u.MapShape? && u.Objs() == t.Objs() && TreeAt(MapRef(data), u)
    ensures u.Content() ==
            Obj(AnonymizedData(sha, a.salt, t.Content().fields, FieldsFor(a, group, event)))
  {
    hide Anonymized, AnonymizedData, KidsDone, Shape.Content, FieldsFor, IsTree, Represents;
    if |a.fields| == 0 || (group, event) !in a.fields || |a.fields[(group, event)]| == 0 {
      u := t;
      NoFieldsFor(a, group, event);
      MapContent(t);
      NothingToHashInData(sha, a.salt, t.Content().fields);
      return;
    }
    assert FieldsFor(a, group, event) == a.fields[(group, event)] by { FieldsAre(a, group, event); }
    u := AnonymizeEntries(sha, a.salt, "", data, a.fields[(group, event)], t);
    AllDone(sha, a.salt, a.fields[(group, event)], u, t);
  }

  lemma FieldsAre(a: Anonymizer, group: string, event: string)
    requires (group, event) in a.fields
    ensures FieldsFor(a, group, event) == a.fields[(group, event)]
  {
  }
}
