/** Method lookup in the interpreter, through a cache of four entries in every class. */
module MethodCache {
  import opened Wrappers
  import opened Vtables

  /** A method definition: the class that holds it, and its name. */
  datatype Fn = Fn(cls: nat, name: string)

  datatype Entry = Entry(cls: string, name: string, found: Option<Fn>)

  const CACHE_SIZE := 4

  /** What stands in a cache before anything is put there. */
  const UNUSED := Entry("", "", None)

  function Latest(classes: seq<ClassDecl>, name: string): (r: Option<nat>)
    ensures r.Some? ==> r.value < |classes| && classes[r.value].name == name
  {
    LastNamed(classes, |classes|, name)
  }

  /** The lookup without the cache: the class itself, then its direct parent. */
  function Lookup(classes: seq<ClassDecl>, name: string, m: string): Option<Fn> {
    match Latest(classes, name)
    case None => None
    case Some(i) =>
      if m in classes[i].methods then Some(Fn(i, m))
      else
        match classes[i].parent
        case None => None
        case Some(parent) =>
          match Latest(classes, parent)
          case None => None
          case Some(j) => if m in classes[j].methods then Some(Fn(j, m)) else None
  }

  function Hash(a: string, b: string): nat { |a| * 31 + |b| }

  /** Two lookups compete for one of the four entries exactly when the method's name is longer than the
      class's by the same number modulo 4. */
  lemma SameEntry(c: string, m: string, d: string, n: string)
    ensures Hash(c, m) % CACHE_SIZE == Hash(d, n) % CACHE_SIZE <==> (|m| - |c|) % 4 == (|n| - |d|) % 4
  {
    assert Hash(c, m) == 4 * (8 * |c|) + (|m| - |c|) && Hash(d, n) == 4 * (8 * |d|) + (|n| - |d|);
  }

  /** An entry says what the lookup says, or was never filled in. */
  predicate Right(classes: seq<ClassDecl>, e: Entry) {
    e == UNUSED || e.found == Lookup(classes, e.cls, e.name)
  }

  /** A method without a name in the class without a name: an unused entry answers for it. */
  predicate Nameless(cls: string, m: string) { cls == "" && m == "" }

  /** As long as an entry is unused, no other answers for the nameless method. */
  predicate NamelessWaits(cache: seq<Entry>) {
    UNUSED in cache ==> forall e :: e in cache && Nameless(e.cls, e.name) ==> e == UNUSED
  }

  predicate Sound(classes: seq<ClassDecl>, cache: seq<Entry>) {
    |cache| == CACHE_SIZE && NamelessWaits(cache) && forall e :: e in cache ==> Right(classes, e)
  }

  predicate Cached(cache: seq<Entry>, cls: string, m: string) {
    exists e :: e in cache && e.cls == cls && e.name == m
  }

  lemma EmptyIsSound(classes: seq<ClassDecl>)
    ensures Sound(classes, [UNUSED, UNUSED, UNUSED, UNUSED])
  {}

  lemma Hit(classes: seq<ClassDecl>, cache: seq<Entry>, e: Entry)
    requires Sound(classes, cache) && e in cache
    ensures e.found == if Nameless(e.cls, e.name) && UNUSED in cache then None else Lookup(classes, e.cls, e.name)
  {}

  /** An entry for names that the cache has not yet may go anywhere. */
  lemma Filled(classes: seq<ClassDecl>, cache: seq<Entry>, i: nat, cls: string, m: string)
    requires Sound(classes, cache) && i < CACHE_SIZE && !Cached(cache, cls, m)
    ensures Sound(classes, cache[i := Entry(cls, m, Lookup(classes, cls, m))])
    ensures !(Nameless(cls, m) && UNUSED in cache)
  {
    var e := Entry(cls, m, Lookup(classes, cls, m));
    var filled := cache[i := e];
    assert Nameless(cls, m) && UNUSED in cache ==> Cached(cache, cls, m);
    assert forall x :: x in filled ==> x == e || x in cache;
  }

  class ClassTable {
    const classes: seq<ClassDecl>
    var caches: map<string, seq<Entry>>

    constructor (classes: seq<ClassDecl>)
      ensures Valid() && this.classes == classes
      ensures forall name :: name in caches ==> caches[name] == [UNUSED, UNUSED, UNUSED, UNUSED]
    {
      this.classes := classes;
      EmptyIsSound(classes);
      caches := map i | 0 <= i < |classes| :: classes[i].name := [UNUSED, UNUSED, UNUSED, UNUSED];
    }

    ghost predicate Valid()
      reads this
    {
      && (forall name :: name in caches <==> Latest(classes, name).Some?)
      && forall name :: name in caches ==> Sound(classes, caches[name])
    }

    /** Every call answers what the lookup would, but for the nameless method, which is not found
        as long as its class's cache has an unused entry. */
    method FindClassMethod(cls: string, m: string) returns (r: Option<Fn>)
      requires Valid()
      modifies this
      ensures Valid()
      ensures r == if Nameless(cls, m) && cls in old(caches) && UNUSED in old(caches)[cls] then None else Lookup(classes, cls, m)
      ensures caches == if cls !in old(caches) || Cached(old(caches)[cls], cls, m) then old(caches)
        else old(caches)[cls := old(caches)[cls][Hash(cls, m) % CACHE_SIZE := Entry(cls, m, r)]]
    {
      if cls !in caches { return None; }
      var cache := caches[cls];
      for k := 0 to CACHE_SIZE
        invariant forall j :: 0 <= j < k ==> !(cache[j].cls == cls && cache[j].name == m)
        invariant caches == old(caches)
      {
        if cache[k].cls == cls && cache[k].name == m {
          Hit(classes, cache, cache[k]);
          return cache[k].found;
        }
      }
      Filled(classes, cache, Hash(cls, m) % CACHE_SIZE, cls, m);
      r := Lookup(classes, cls, m);
      caches := caches[cls := cache[Hash(cls, m) % CACHE_SIZE := Entry(cls, m, r)]];
    }
  }

  // ----- against the tables of the code generator -----

  /** Distinct names, parents declared before their children. */
  predicate WellDeclared(classes: seq<ClassDecl>) {
    && (forall a, b :: 0 <= a < b < |classes| ==> classes[a].name != classes[b].name)
    && forall i :: 0 <= i < |classes| && classes[i].parent.Some? ==> exists j :: 0 <= j < i && classes[j].name == classes[i].parent.value
  }

  lemma LatestIs(classes: seq<ClassDecl>, i: nat)
    requires WellDeclared(classes) && i < |classes|
    ensures Latest(classes, classes[i].name) == Some(i)
    ensures match classes[i].parent
      case None => ParentOf(classes, i) == None
      case Some(p) => Latest(classes, p) == ParentOf(classes, i) && ParentOf(classes, i).Some?
  {
    var l := Latest(classes, classes[i].name).value;
    assert classes[l].name == classes[i].name;
    match classes[i].parent
    case None =>
    case Some(p) =>
      var j :| 0 <= j < i && classes[j].name == p;
      DeclaredParent(classes, i, j);
      assert classes[Latest(classes, p).value].name == classes[j].name;
  }

  /** The interpreter finds a method exactly when its nearest definition is in the class or its
      direct parent, and then the slot of the class's table names that very definition. */
  lemma LookupAgainstTable(classes: seq<ClassDecl>, i: nat, m: string)
    requires WellDeclared(classes) && i < |classes|
    ensures var near := Nearest(classes, i, m);
      Lookup(classes, classes[i].name, m)
        == if near.Some? && (near == Some(i) || near == ParentOf(classes, i)) then Some(Fn(near.value, m)) else None
    ensures var f := Lookup(classes, classes[i].name, m);
      f.Some? ==> f.value.cls < |classes| && Target(Table(classes, i), m) == Some(Mangle(classes[f.value.cls], m))
  {
    LatestIs(classes, i);
    TableMeaning(classes, i, m);
    if m !in classes[i].methods && classes[i].parent.Some? {
      var p := ParentOf(classes, i).value;
      if m !in classes[p].methods && ParentOf(classes, p).Some? {
        assert Nearest(classes, i, m) == Nearest(classes, ParentOf(classes, p).value, m);
      }
    }
  }

  /** A method of the grandparent is in the compiled table but not found by the interpreter. */
  lemma GrandparentMissed(m: string)
    ensures var classes := [ClassDecl("", "A", None, [m]), ClassDecl("", "B", Some("A"), []), ClassDecl("", "C", Some("B"), [])];
      WellDeclared(classes) && Lookup(classes, "C", m) == None && Target(Table(classes, 2), m) == Some(Mangle(classes[0], m))
  {
    var classes := [ClassDecl("", "A", None, [m]), ClassDecl("", "B", Some("A"), []), ClassDecl("", "C", Some("B"), [])];
    assert classes[0].name == "A" && classes[1].name == "B" && classes[2].name == "C";
    assert WellDeclared(classes);
    DeclaredParent(classes, 1, 0);
    DeclaredParent(classes, 2, 1);
    LookupAgainstTable(classes, 2, m);
    TableMeaning(classes, 2, m);
  }
}
