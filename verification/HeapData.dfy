/** Event data as the caller owns it: maps and lists on the heap, acyclic but possibly shared.
    Cloning it makes a fresh tree with the same content (logger.go). */
module HeapData {
  import opened Events

  class MapObj {
    var entries: map<string, Any>

    constructor (entries: map<string, Any>)
      ensures this.entries == entries
    {
      this.entries := entries;
    }
  }

  class ListObj {
    var items: seq<Any>

    constructor (items: seq<Any>)
      ensures this.items == items
    {
      this.items := items;
    }
  }

  /** A dynamic value: a scalar, or a reference to a map or a list. */
  datatype Any = Leaf(v: Scalar) | MapRef(m: MapObj) | ListRef(l: ListObj)

  /** How an acyclic value lies on the heap. objs holds every object that can be reached; the same
      object may occur in several places. */
  datatype Shape =
    | ScalarShape(v: Scalar)
    | MapShape(m: MapObj, kids: map<string, Shape>, objs: set<object>)
    | ListShape(l: ListObj, elems: seq<Shape>, objs: set<object>)
  {
    ghost function Objs(): set<object> {
      if ScalarShape? then {} else objs
    }

    /** The content, without the identities of the objects. */
    ghost function Content(): Value {
      match this
      case ScalarShape(v) => v
      case MapShape(_, kids, _) => Obj(map k | k in kids :: kids[k].Content())
      case ListShape(_, elems, _) => List(seq(|elems|, i requires 0 <= i < |elems| => elems[i].Content()))
    }
  }

  /** v lies on the heap as t says. */
  ghost predicate Represents(v: Any, t: Shape)
    reads t.Objs()
    decreases t
  {
    match t
    case ScalarShape(s) => v == Leaf(s)
    case MapShape(m, kids, objs) =>
      v == MapRef(m) && m in objs && m.entries.Keys == kids.Keys &&
      forall k | k in kids :: kids[k].Objs() <= objs && Represents(m.entries[k], kids[k])
    case ListShape(l, elems, objs) =>
      v == ListRef(l) && l in objs && |l.items| == |elems| &&
      forall i | 0 <= i < |elems| :: elems[i].Objs() <= objs && Represents(l.items[i], elems[i])
  }

  ghost predicate Apart(elems: seq<Shape>) {
    forall i, j | 0 <= i < j < |elems| :: elems[i].Objs() !! elems[j].Objs()
  }

  ghost predicate ApartKids(kids: map<string, Shape>) {
    forall j, k | j in kids && k in kids && j != k :: kids[j].Objs() !! kids[k].Objs()
  }

  /** Nothing is shared. */
  ghost predicate IsTree(t: Shape) {
    match t
    case ScalarShape(_) => true
    case MapShape(m, kids, _) => ApartKids(kids) && forall k | k in kids :: m !in kids[k].Objs() && IsTree(kids[k])
    case ListShape(l, elems, _) =>
      Apart(elems) && forall i | 0 <= i < |elems| :: l !in elems[i].Objs() && IsTree(elems[i])
  }

  // ---------- Cloning ----------

  /** The part of a clone made so far: trees apart from each other, within made. */
  ghost predicate KidsMade(entries: map<string, Any>, kids: map<string, Shape>, made: set<object>)
    reads made
  {
    && ApartKids(kids)
    && forall k | k in kids ::
      k in entries && kids[k].Objs() <= made && IsTree(kids[k]) && Represents(entries[k], kids[k])
  }

  ghost predicate ElemsMade(items: seq<Any>, elems: seq<Shape>, made: set<object>)
    reads made
  {
    && Apart(elems) && |elems| <= |items|
    && forall i | 0 <= i < |elems| :: elems[i].Objs() <= made && IsTree(elems[i]) && Represents(items[i], elems[i])
  }

  ghost predicate SameContents(kids: map<string, Shape>, from: map<string, Shape>) {
    forall k | k in kids :: k in from && kids[k].Content() == from[k].Content()
  }

  ghost predicate SameElemContents(elems: seq<Shape>, from: seq<Shape>) {
    |elems| <= |from| && forall i | 0 <= i < |elems| :: elems[i].Content() == from[i].Content()
  }

  lemma NothingCloned(from: map<string, Shape>)
    ensures SameContents(map[], from)
  {
  }

  lemma NoneMade(entries: map<string, Any>)
    ensures KidsMade(entries, map[], {})
  {
  }

  lemma OneMoreCloned(kids: map<string, Shape>, from: map<string, Shape>, k: string, kid: Shape)
    requires SameContents(kids, from) && k in from && kid.Content() == from[k].Content()
    ensures SameContents(kids[k := kid], from)
  {
    hide Shape.Content;
  }

  lemma AddKid(entries: map<string, Any>, kids: map<string, Shape>, made: set<object>, k: string, c: Any, kid: Shape)
    requires KidsMade(entries, kids, made) && k !in kids
    requires Represents(c, kid) && IsTree(kid) && kid.Objs() !! made
    ensures KidsMade(entries[k := c], kids[k := kid], made + kid.Objs())
  {
  }

  lemma AddElem(items: seq<Any>, elems: seq<Shape>, made: set<object>, c: Any, elem: Shape)
    requires ElemsMade(items, elems, made) && |elems| < |items|
    requires Represents(c, elem) && IsTree(elem) && elem.Objs() !! made
    ensures ElemsMade(items[|elems| := c], elems + [elem], made + elem.Objs())
  {
  }

  lemma SameMapContent(u: Shape, t: Shape)
    requires u.MapShape? && t.MapShape? && SameContents(u.kids, t.kids) && u.kids.Keys == t.kids.Keys
    ensures u.Content() == t.Content()
  {
    MapContent(u);
    MapContent(t);
    hide Shape.Content;
    assert u.Content().fields == t.Content().fields;
  }

  lemma MapContent(t: Shape)
    requires t.MapShape?
    ensures var c := t.Content();
            c.Obj? && c.fields.Keys == t.kids.Keys && forall k | k in t.kids :: c.fields[k] == t.kids[k].Content()
  {
  }

  lemma ListContent(t: Shape)
    requires t.ListShape?
    ensures var c := t.Content();
            c.List? && |c.items| == |t.elems| && forall i | 0 <= i < |t.elems| :: c.items[i] == t.elems[i].Content()
  {
  }

  /** When every entry is cloned, the clone is a tree. */
  lemma CloneIsTree(r: MapObj, kids: map<string, Shape>, made: set<object>)
    requires KidsMade(r.entries, kids, made) && r !in made && r.entries.Keys == kids.Keys
    ensures var u := MapShape(r, kids, made + {r}); Represents(MapRef(r), u) && IsTree(u)
  {
  }

  /** The entries in todo are still those of the original map. */
  ghost predicate Pending(entries: map<string, Any>, from: map<string, Any>, todo: set<string>) {
    entries.Keys == from.Keys && todo <= from.Keys && forall k | k in todo :: entries[k] == from[k]
  }

  /** A fresh map with the same content, none of whose parts is shared. As the method changes nothing
      that existed before, the caller's maps and lists keep their content. */
  method CloneEventData(m: MapObj, ghost t: Shape) returns (r: MapObj, ghost u: Shape)
    requires Represents(MapRef(m), t)
    ensures u.MapShape? && u.m == r
    ensures Represents(MapRef(r), u) && IsTree(u) && fresh(u.Objs()) && u.Content() == t.Content()
    decreases t, 0
  {
    hide Shape.Content, IsTree, SameContents, KidsMade;
    assert SameContents(map[], t.kids) by { NothingCloned(t.kids); }
    r := new MapObj(m.entries);
    assert KidsMade(r.entries, map[], {}) by { NoneMade(r.entries); }
    var todo := r.entries.Keys;
    ghost var kids: map<string, Shape> := map[];
    ghost var made: set<object> := {};
    while todo != {}
      invariant Pending(r.entries, m.entries, todo) && kids.Keys == t.kids.Keys - todo
      invariant fresh(made) && r !in made
      invariant KidsMade(r.entries, kids, made) && SameContents(kids, t.kids)
    {
      var k :| k in todo;
      ghost var kid := CloneEntry(r, k, t.kids[k], kids, made);
      OneMoreCloned(kids, t.kids, k, kid);
      kids := kids[k := kid];
      made := made + kid.Objs();
      todo := todo - {k};
    }
    u := MapShape(r, kids, made + {r});
    CloneIsTree(r, kids, made);
    SameMapContent(u, t);
  }

  /** One turn of the loop: the entry is replaced by its clone. */
  method CloneEntry(
    r: MapObj, k: string, ghost t: Shape, ghost kids: map<string, Shape>, ghost made: set<object>)
    returns (ghost kid: Shape)
    requires k in r.entries && Represents(r.entries[k], t) && r !in t.Objs()
    requires k !in kids && KidsMade(r.entries, kids, made) && r !in made
    modifies r
    ensures fresh(kid.Objs()) && kid.Content() == t.Content()
    ensures r.entries.Keys == old(r.entries.Keys)
    ensures forall j | j in r.entries && j != k :: r.entries[j] == old(r.entries)[j]
    ensures KidsMade(r.entries, kids[k := kid], made + kid.Objs())
    decreases t, 2
  {
    var c;
    c, kid := CloneEventDataValue(r.entries[k], t);
    ghost var before := r.entries;
    r.entries := r.entries[k := c];
    AddKid(before, kids, made, k, c, kid);
  }

  method CloneEventDataValue(v: Any, ghost t: Shape) returns (r: Any, ghost u: Shape)
    requires Represents(v, t)
    ensures Represents(r, u) && IsTree(u) && fresh(u.Objs()) && u.Content() == t.Content()
    decreases t, 1
  {
    match v
    case MapRef(m) =>
      var copy;
      copy, u := CloneEventData(m, t);
      r := MapRef(copy);
    case ListRef(l) =>
      var copy := new ListObj(l.items);
      ghost var elems := [];
      ghost var made: set<object> := {};
      var i := 0;
      while i < |copy.items|
        invariant 0 <= i <= |copy.items| == |t.elems| && |elems| == i
        invariant forall j | i <= j < |t.elems| :: copy.items[j] == l.items[j]
        invariant fresh(made) && copy !in made
        invariant ElemsMade(copy.items, elems, made) && SameElemContents(elems, t.elems)
      {
        var c, elem := CloneEventDataValue(copy.items[i], t.elems[i]);
        ghost var before := copy.items;
        copy.items := copy.items[i := c];
        AddElem(before, elems, made, c, elem);
        elems := elems + [elem];
        made := made + elem.Objs();
        i := i + 1;
      }
      u := ListShape(copy, elems, made + {copy});
      r := ListRef(copy);
    case Leaf(_) =>
      r, u := v, t;
  }
}
