/** Virtual tables of the code generator: every class repeats its parent's slots and adds its own. */
module Vtables {
  import opened Wrappers

  datatype ClassDecl = ClassDecl(unit: string, name: string, parent: Option<string>, methods: seq<string>)

  datatype Slot = Slot(name: string, target: string)

  /** The symbol of a method's code. */
  function Mangle(c: ClassDecl, m: string): string {
    if c.unit == "" then "__method_" + c.name + "_" + m else "__method_" + c.unit + "_" + c.name + "_" + m
  }

  /** The symbol of a method is that of another one as well, of some class and name, exactly if its
      class belongs to a unit or one of the two names has an underscore. */
  lemma SymbolShared(c: ClassDecl, m: string)
    ensures (exists d, n :: Shares(c, m, d, n)) <==> c.unit != "" || '_' in c.name || '_' in m
  {
    if c.unit != "" || '_' in c.name || '_' in m {
      var d, n := OtherReading(c, m);
    } else {
      forall d, n ensures !Shares(c, m, d, n) { OneReading(c, m, d, n); }
    }
  }

  predicate Shares(c: ClassDecl, m: string, d: ClassDecl, n: string) {
    Mangle(d, n) == Mangle(c, m) && (d.unit, d.name, n) != (c.unit, c.name, m)
  }

  lemma CutAtBar(s: string) returns (a: string, b: string)
    requires '_' in s
    ensures s == a + "_" + b
  {
    var i :| 0 <= i < |s| && s[i] == '_';
    a, b := s[..i], s[i + 1..];
  }

  lemma OtherReading(c: ClassDecl, m: string) returns (d: ClassDecl, n: string)
    requires c.unit != "" || '_' in c.name || '_' in m
    ensures Shares(c, m, d, n)
  {
    if c.unit != "" {
      d, n := c.(unit := "", name := c.unit + "_" + c.name), m;
      assert "__method_" + (c.unit + "_" + c.name) + "_" + m == "__method_" + c.unit + "_" + c.name + "_" + m;
    } else if '_' in c.name {
      var a, b := CutAtBar(c.name);
      d, n := c.(name := a), b + "_" + m;
      assert "__method_" + (a + "_" + b) + "_" + m == "__method_" + a + "_" + (b + "_" + m);
    } else {
      var a, b := CutAtBar(m);
      d, n := c.(name := c.name + "_" + a), b;
      assert "__method_" + (c.name + "_" + a) + "_" + b == "__method_" + c.name + "_" + (a + "_" + b);
    }
  }

  lemma OneReading(c: ClassDecl, m: string, d: ClassDecl, n: string)
    requires c.unit == "" && '_' !in c.name && '_' !in m
    ensures !Shares(c, m, d, n)
  {
    if d.unit != "" { ThreeParts(c, m, d, n); } else { TwoParts(c, m, d, n); }
  }

  /** A symbol of three parts has an underscore where one of two has none. */
  lemma ThreeParts(c: ClassDecl, m: string, d: ClassDecl, n: string)
    requires c.unit == "" && '_' !in c.name && '_' !in m && d.unit != ""
    ensures Mangle(d, n) != Mangle(c, m)
  {
    var u, v := Mangle(d, n), Mangle(c, m);
    var k := 9 + if |d.unit| == |c.name| then |d.unit| + 1 + |d.name| else |d.unit|;
    assert u == "__method_" + (d.unit + "_" + (d.name + "_" + n)) && v == "__method_" + (c.name + "_" + m);
    assert u[k] == '_' && (k < |v| ==> v[k] != '_');
  }

  lemma TwoParts(c: ClassDecl, m: string, d: ClassDecl, n: string)
    requires c.unit == "" == d.unit && '_' !in c.name && '_' !in m
    ensures Mangle(d, n) == Mangle(c, m) ==> d.name == c.name && n == m
  {
    var s, t := c.name + "_" + m, d.name + "_" + n;
    assert Mangle(d, n) == "__method_" + t && Mangle(c, m) == "__method_" + s;
    if "__method_" + t == "__method_" + s {
      assert t == ("__method_" + t)[9..] == ("__method_" + s)[9..] == s;
      assert t[|d.name|] == '_' && forall k :: 0 <= k < |s| ==> (s[k] == '_' <==> k == |c.name|);
      assert d.name == t[..|d.name|] && n == t[|d.name| + 1..] && c.name == s[..|c.name|] && m == s[|c.name| + 1..];
    }
  }

  // ----- inheritance -----

  /** The parent that counts: the last class of that name declared before. */
  function LastNamed(classes: seq<ClassDecl>, n: nat, name: string): (r: Option<nat>)
    requires n <= |classes|
    ensures r.Some? ==> r.value < n && classes[r.value].name == name
    ensures r.None? ==> forall j :: 0 <= j < n ==> classes[j].name != name
  {
    if n == 0 then None else if classes[n - 1].name == name then Some(n - 1) else LastNamed(classes, n - 1, name)
  }

  function ParentOf(classes: seq<ClassDecl>, i: nat): (r: Option<nat>)
    requires i < |classes|
    ensures r.Some? ==> r.value < i
  {
    match classes[i].parent case None => None case Some(p) => LastNamed(classes, i, p)
  }

  /** The nearest class that defines a method, going up from class i. */
  function Nearest(classes: seq<ClassDecl>, i: nat, m: string): (r: Option<nat>)
    requires i < |classes|
    ensures r.Some? ==> r.value <= i && m in classes[r.value].methods
    decreases i
  {
    if m in classes[i].methods then Some(i)
    else match ParentOf(classes, i) case None => None case Some(p) => Nearest(classes, p, m)
  }

  // ----- tables -----

  /** Position of a method's slot, or the length. */
  function Find(t: seq<Slot>, m: string): (k: nat)
    ensures k <= |t| && (k < |t| ==> t[k].name == m) && forall j :: 0 <= j < k ==> t[j].name != m
  {
    if t == [] || t[0].name == m then 0 else 1 + Find(t[1..], m)
  }

  function Put(t: seq<Slot>, s: Slot): seq<Slot> {
    var k := Find(t, s.name);
    if k < |t| then t[k := s] else t + [s]
  }

  function PutAll(t: seq<Slot>, own: seq<Slot>): seq<Slot> {
    if own == [] then t else Put(PutAll(t, own[..|own| - 1]), own[|own| - 1])
  }

  /** The slots that a class defines itself. */
  function Own(c: ClassDecl): (own: seq<Slot>)
    ensures |own| == |c.methods|
    ensures forall k :: 0 <= k < |own| ==> own[k] == Slot(c.methods[k], Mangle(c, c.methods[k]))
  {
    seq(|c.methods|, k requires 0 <= k < |c.methods| => Slot(c.methods[k], Mangle(c, c.methods[k])))
  }

  function Table(classes: seq<ClassDecl>, i: nat): seq<Slot>
    requires i < |classes|
    decreases i
  {
    var inherited := match ParentOf(classes, i) case None => [] case Some(p) => Table(classes, p);
    PutAll(inherited, Own(classes[i]))
  }

  predicate Unique(t: seq<Slot>) { forall i, j :: 0 <= i < j < |t| ==> t[i].name != t[j].name }

  /** The same methods in the same slots, and perhaps more. */
  predicate Extends(t: seq<Slot>, base: seq<Slot>) {
    |base| <= |t| && forall k :: 0 <= k < |base| ==> t[k].name == base[k].name
  }

  /** What a table names for a method. */
  function Target(t: seq<Slot>, m: string): Option<string> {
    var k := Find(t, m);
    if k < |t| then Some(t[k].target) else None
  }

  lemma FindUnique(t: seq<Slot>, k: nat)
    requires Unique(t) && k < |t|
    ensures Find(t, t[k].name) == k
  {
    var f := Find(t, t[k].name);
    assert t[f].name == t[k].name;
  }

  lemma PutFacts(t: seq<Slot>, s: Slot, m: string)
    requires Unique(t)
    ensures Unique(Put(t, s)) && Extends(Put(t, s), t)
    ensures Target(Put(t, s), m) == if m == s.name then Some(s.target) else Target(t, m)
  {
    var k, r := Find(t, s.name), Put(t, s);
    forall j | 0 <= j < |t| ensures r[j].name == t[j].name {}
    var f := Find(r, m);
    var g := Find(t, m);
    if f < |t| { assert r[f].name == t[f].name; }
    if g < |t| {
      assert r[g].name == m;
      FindUnique(r, g);
    } else if m == s.name {
      FindUnique(r, |t|);
    }
  }

  lemma ExtendsTwice(t: seq<Slot>, u: seq<Slot>, r: seq<Slot>)
    requires Extends(u, t) && Extends(r, u)
    ensures Extends(r, t)
  {
    forall k | 0 <= k < |t| ensures r[k].name == t[k].name { assert u[k].name == t[k].name; }
  }

  predicate Names(own: seq<Slot>, m: string) { exists k :: 0 <= k < |own| && own[k].name == m }

  lemma {:induction false} PutAllFacts(t: seq<Slot>, own: seq<Slot>, m: string, target: string)
    requires Unique(t) && forall k :: 0 <= k < |own| && own[k].name == m ==> own[k].target == target
    ensures Unique(PutAll(t, own)) && Extends(PutAll(t, own), t)
    ensures Target(PutAll(t, own), m) == if Names(own, m) then Some(target) else Target(t, m)
    decreases |own|
  {
    if own != [] {
      var n := |own| - 1;
      var u := PutAll(t, own[..n]);
      PutAllFacts(t, own[..n], m, target);
      PutFacts(u, own[n], m);
      ExtendsTwice(t, u, PutAll(t, own));
      assert Names(own, m) <==> Names(own[..n], m) || own[n].name == m;
    }
  }

  /** Each table has one slot a method, repeats the parent's slots as a prefix, and names the
      nearest definition up the inheritance chain, for exactly the methods that have one. */
  lemma {:induction false} TableMeaning(classes: seq<ClassDecl>, i: nat, m: string)
    requires i < |classes|
    ensures Unique(Table(classes, i))
    ensures ParentOf(classes, i).Some? ==> Extends(Table(classes, i), Table(classes, ParentOf(classes, i).value))
    ensures Target(Table(classes, i), m) == match Nearest(classes, i, m)
      case None => None
      case Some(d) => Some(Mangle(classes[d], m))
    decreases i
  {
    var c := classes[i];
    OwnNames(c, m);
    match ParentOf(classes, i)
    case None => PutAllFacts([], Own(c), m, Mangle(c, m));
    case Some(p) =>
      TableMeaning(classes, p, m);
      PutAllFacts(Table(classes, p), Own(c), m, Mangle(c, m));
  }

  lemma OwnNames(c: ClassDecl, m: string)
    ensures Names(Own(c), m) <==> m in c.methods
  {
    if m in c.methods {
      var k :| 0 <= k < |c.methods| && c.methods[k] == m;
      assert Own(c)[k].name == m;
    }
  }

  /** With distinct names and parents before their children, the parent that counts is the parent. */
  lemma DeclaredParent(classes: seq<ClassDecl>, i: nat, j: nat)
    requires i < |classes| && j < i && classes[i].parent == Some(classes[j].name)
    requires forall a, b :: 0 <= a < b < |classes| ==> classes[a].name != classes[b].name
    ensures ParentOf(classes, i) == Some(j)
  {
    var p := LastNamed(classes, i, classes[j].name).value;
    assert classes[p].name == classes[j].name;
  }

  /** A child declared before its parent inherits nothing. */
  lemma ChildFirst(classes: seq<ClassDecl>, i: nat, m: string)
    requires i < |classes| && classes[i].parent.Some?
    requires forall j :: 0 <= j < i ==> classes[j].name != classes[i].parent.value
    ensures Nearest(classes, i, m).Some? <==> m in classes[i].methods
  {}

  // ----- the loops -----

  /** Builds the table of every class in declaration order. */
  method Build(classes: seq<ClassDecl>) returns (tables: map<string, seq<Slot>>)
    ensures forall name :: name in tables <==> LastNamed(classes, |classes|, name).Some?
    ensures forall name :: name in tables ==> tables[name] == Table(classes, LastNamed(classes, |classes|, name).value)
  {
    tables := map[];
    for i := 0 to |classes|
      invariant forall name :: name in tables <==> LastNamed(classes, i, name).Some?
      invariant forall name :: name in tables ==> tables[name] == Table(classes, LastNamed(classes, i, name).value)
    {
      var c := classes[i];
      var entries: seq<Slot> := [];
      if c.parent.Some? && c.parent.value in tables { entries := tables[c.parent.value]; }
      entries := AddOwn(entries, c);
      tables := tables[c.name := entries];
    }
  }

  /** Own methods replace the inherited slot or go behind it. */
  method AddOwn(inherited: seq<Slot>, c: ClassDecl) returns (entries: seq<Slot>)
    ensures entries == PutAll(inherited, Own(c))
  {
    entries := inherited;
    var seen := set s | s in inherited :: s.name;
    ghost var own := Own(c);
    for n := 0 to |c.methods|
      invariant entries == PutAll(inherited, own[..n])
      invariant forall x :: x in seen <==> Names(entries, x)
    {
      PutAllNext(inherited, own, n);
      entries, seen := AddNth(entries, seen, c, n, own[n]);
    }
    assert own[..|own|] == own;
  }

  lemma PutAllNext(t: seq<Slot>, own: seq<Slot>, n: nat)
    requires n < |own|
    ensures PutAll(t, own[..n + 1]) == Put(PutAll(t, own[..n]), own[n])
  {
    assert own[..n + 1][..n] == own[..n];
  }

  /** One method of the class. */
  method AddNth(t: seq<Slot>, seen: set<string>, c: ClassDecl, n: nat, ghost s: Slot) returns (r: seq<Slot>, names: set<string>)
    requires n < |c.methods| && s == Own(c)[n] && forall x :: x in seen <==> Names(t, x)
    ensures r == Put(t, s) && forall x :: x in names <==> Names(r, x)
  {
    r, names := AddOne(t, seen, Slot(c.methods[n], Mangle(c, c.methods[n])));
  }

  method AddOne(t: seq<Slot>, seen: set<string>, s: Slot) returns (r: seq<Slot>, names: set<string>)
    requires forall x :: x in seen <==> Names(t, x)
    ensures r == Put(t, s) && forall x :: x in names <==> Names(r, x)
  {
    r, names := t, seen;
    if s.name in seen {
      var pos := Position(t, s.name);
      if pos < |t| { r := t[pos := s]; }
    } else {
      r := t + [s];
      names := seen + {s.name};
    }
    PutNames(t, s);
  }

  lemma PutNames(t: seq<Slot>, s: Slot)
    ensures Names(t, s.name) <==> Find(t, s.name) < |t|
    ensures forall x :: Names(Put(t, s), x) <==> Names(t, x) || x == s.name
  {
    var k, r := Find(t, s.name), Put(t, s);
    assert r[k] == s && forall i :: 0 <= i < |t| && i != k ==> r[i] == t[i];
    forall x ensures Names(r, x) <==> Names(t, x) || x == s.name {
      if Names(t, x) {
        var i :| 0 <= i < |t| && t[i].name == x;
        assert r[i].name == x;
      }
      if Names(r, x) {
        var i :| 0 <= i < |r| && r[i].name == x;
        assert i != k ==> t[i].name == x;
      }
    }
  }

  method Position(t: seq<Slot>, m: string) returns (k: nat)
    ensures k == Find(t, m)
  {
    k := 0;
    while k < |t| && t[k].name != m
      invariant k <= |t| && forall j :: 0 <= j < k ==> t[j].name != m
    {
      k := k + 1;
    }
  }
}
