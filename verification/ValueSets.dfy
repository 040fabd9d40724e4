/** Sets of runtime values: literals and the set methods of the evaluator. */
module ValueSets {
  import opened Values
  import opened Equality

  ghost predicate AllProper(s: seq<Value>) { forall i :: 0 <= i < |s| ==> Proper(s[i]) }

  lemma ContainsTransitive(s: seq<Value>, v: Value, w: Value)
    requires Contains(s, v) && Equal(v, w)
    ensures Contains(s, w)
  {
    var i :| 0 <= i < |s| && Equal(s[i], v);
    Transitive(s[i], v, w);
  }

  /** Two sets without duplicates are equal exactly when they contain the same values. */
  lemma Extensional(a: Value, b: Value)
    requires a.Set? && b.Set? && Proper(a) && Proper(b) && Comparable(a) && Comparable(b)
    ensures Equal(a, b) <==> forall v :: Contains(a.items, v) <==> Contains(b.items, v)
  {
    if Equal(a, b) {
      Symmetric(a, b);
      forall v ensures Contains(a.items, v) <==> Contains(b.items, v) {
        if Contains(a.items, v) { ContainsToo(a, b, v); }
        if Contains(b.items, v) { ContainsToo(b, a, v); }
      }
    }
    if forall v :: Contains(a.items, v) <==> Contains(b.items, v) {
      Members(a);
      Members(b);
      AtMost(a.items, b.items);
      AtMost(b.items, a.items);
      SetEqual(a, b);
    }
  }

  lemma ContainsToo(a: Value, b: Value, v: Value)
    requires a.Set? && b.Set? && Equal(a, b) && Contains(a.items, v)
    ensures Contains(b.items, v)
  {
    SetEqual(a, b);
    var i :| 0 <= i < |a.items| && Equal(a.items[i], v);
    ContainsTransitive(b.items, a.items[i], v);
  }

  lemma Members(a: Value)
    requires a.Set? && Proper(a) && Comparable(a)
    ensures AllProper(a.items) && DupFree(a.items) && forall i :: 0 <= i < |a.items| ==> Contains(a.items, a.items[i])
  {
    forall i | 0 <= i < |a.items| ensures Contains(a.items, a.items[i]) && Proper(a.items[i]) {
      assert Child(a, At(i)) == a.items[i];
      ComparableEqual(a.items[i]);
    }
  }

  /** Elements that differ need as many places. */
  lemma AtMost(xs: seq<Value>, ys: seq<Value>)
    requires AllProper(xs) && AllProper(ys) && DupFree(xs) && forall i :: 0 <= i < |xs| ==> Contains(ys, xs[i])
    ensures |xs| <= |ys|
  {
    var f := Choice(xs, ys);
    forall i, j | 0 <= i < j < |f| ensures f[i] != f[j] {
      if f[i] == f[j] {
        Symmetric(ys[f[i]], xs[i]);
        Transitive(xs[i], ys[f[i]], xs[j]);
      }
    }
    PigeonHole(f, |ys|);
  }

  /** The scan that `contains` and `position` make. */
  method Position(s: seq<Value>, x: Value) returns (pos: nat)
    ensures pos <= |s| && (pos < |s| <==> Contains(s, x))
    ensures pos < |s| ==> Equal(s[pos], x)
    ensures forall i :: 0 <= i < pos ==> !Equal(s[i], x)
  {
    pos := 0;
    while pos < |s|
      invariant pos <= |s| && forall i :: 0 <= i < pos ==> !Equal(s[i], x)
    {
      if Equal(s[pos], x) { return; }
      pos := pos + 1;
    }
  }

  lemma ContainsPush(s: seq<Value>, v: Value, w: Value)
    ensures Contains(s + [v], w) <==> Contains(s, w) || Equal(v, w)
  {
    var t := s + [v];
    if Contains(s, w) || Equal(v, w) { PushContains(s, v, w); }
    if i :| 0 <= i < |t| && Equal(t[i], w) { assert i == |s| || t[i] == s[i]; }
  }

  lemma PushContains(s: seq<Value>, v: Value, w: Value)
    requires Contains(s, w) || Equal(v, w)
    ensures Contains(s + [v], w)
  {
    var t := s + [v];
    if i :| 0 <= i < |s| && Equal(s[i], w) { assert t[i] == s[i]; } else { assert t[|s|] == v; }
  }

  /** The last element and the others. */
  lemma ContainsLast(s: seq<Value>, w: Value)
    requires s != []
    ensures Contains(s, w) <==> Contains(s[..|s| - 1], w) || Equal(s[|s| - 1], w)
  {
    assert s == s[..|s| - 1] + [s[|s| - 1]];
    ContainsPush(s[..|s| - 1], s[|s| - 1], w);
  }

  function With(s: seq<Value>, v: Value): (r: seq<Value>)
    ensures DupFree(s) ==> DupFree(r)
  {
    if Contains(s, v) then s else s + [v]
  }

  lemma WithContains(s: seq<Value>, v: Value, w: Value)
    ensures Contains(With(s, v), w) <==> Contains(s, w) || Equal(v, w)
  {
    ContainsPush(s, v, w);
    if Contains(s, v) && Equal(v, w) { ContainsTransitive(s, v, w); }
  }

  // ----- literals and unions -----

  /** The values of b that are not there yet are appended in order. */
  function Merged(a: seq<Value>, b: seq<Value>): (r: seq<Value>)
    ensures DupFree(a) ==> DupFree(r)
    ensures forall x :: x in r ==> x in a || x in b
  {
    if b == [] then a else With(Merged(a, b[..|b| - 1]), b[|b| - 1])
  }

  lemma {:induction false} MergedContains(a: seq<Value>, b: seq<Value>, v: Value)
    ensures Contains(Merged(a, b), v) <==> Contains(a, v) || Contains(b, v)
  {
    if b != [] {
      var n := |b| - 1;
      MergedContains(a, b[..n], v);
      WithContains(Merged(a, b[..n]), b[n], v);
      ContainsLast(b, v);
    }
  }

  /** A set literal keeps the first of equal items. */
  method SetLit(items: seq<Value>) returns (r: seq<Value>)
    ensures r == Merged([], items)
  {
    r := [];
    for k := 0 to |items|
      invariant r == Merged([], items[..k])
    {
      assert items[..k + 1][..k] == items[..k];
      var pos := Position(r, items[k]);
      if pos == |r| { r := r + [items[k]]; }
    }
    assert items[..|items|] == items;
  }

  method Union(a: seq<Value>, b: seq<Value>) returns (r: seq<Value>)
    ensures r == Merged(a, b)
  {
    r := a;
    for k := 0 to |b|
      invariant r == Merged(a, b[..k])
    {
      assert b[..k + 1][..k] == b[..k];
      var pos := Position(r, b[k]);
      if pos == |r| { r := r + [b[k]]; }
    }
    assert b[..|b|] == b;
  }

  // ----- intersection and difference -----

  /** The elements that b contains, or that it does not contain, in order. */
  function Filtered(a: seq<Value>, b: seq<Value>, keep: bool): (r: seq<Value>)
    ensures forall x :: x in r ==> x in a
  {
    if a == [] then []
    else
      var n := |a| - 1;
      var init := Filtered(a[..n], b, keep);
      if Contains(b, a[n]) == keep then init + [a[n]] else init
  }

  lemma {:induction false} FilteredDupFree(a: seq<Value>, b: seq<Value>, keep: bool)
    requires DupFree(a)
    ensures DupFree(Filtered(a, b, keep))
  {
    if a != [] {
      var n := |a| - 1;
      FilteredDupFree(a[..n], b, keep);
      var init := Filtered(a[..n], b, keep);
      forall i | 0 <= i < |init| ensures !Equal(init[i], a[n]) {
        assert init[i] in a[..n];
      }
    }
  }

  /** The filtered set is the mathematical intersection (keep) or difference (not keep). */
  lemma {:induction false} FilteredContains(a: seq<Value>, b: seq<Value>, keep: bool, v: Value)
    requires AllProper(a) && AllProper(b) && Proper(v)
    ensures Contains(Filtered(a, b, keep), v) <==> Contains(a, v) && (Contains(b, v) <==> keep)
  {
    if a != [] {
      var n := |a| - 1;
      FilteredContains(a[..n], b, keep, v);
      ContainsLast(a, v);
      ContainsPush(Filtered(a[..n], b, keep), a[n], v);
      if Equal(a[n], v) { ContainsEqual(b, a[n], v); }
    }
  }

  /** Equal values are contained alike. */
  lemma ContainsEqual(s: seq<Value>, v: Value, w: Value)
    requires Proper(v) && Proper(w) && Equal(v, w)
    ensures Contains(s, v) <==> Contains(s, w)
  {
    Symmetric(v, w);
    if Contains(s, v) { ContainsTransitive(s, v, w); }
    if Contains(s, w) { ContainsTransitive(s, w, v); }
  }

  method Intersection(a: seq<Value>, b: seq<Value>) returns (r: seq<Value>)
    ensures r == Filtered(a, b, true)
  {
    r := [];
    for k := 0 to |a|
      invariant r == Filtered(a[..k], b, true)
    {
      assert a[..k + 1][..k] == a[..k];
      var pos := Position(b, a[k]);
      if pos < |b| { r := r + [a[k]]; }
    }
    assert a[..|a|] == a;
  }

  method Difference(a: seq<Value>, b: seq<Value>) returns (r: seq<Value>)
    ensures r == Filtered(a, b, false)
  {
    r := [];
    for k := 0 to |a|
      invariant r == Filtered(a[..k], b, false)
    {
      assert a[..k + 1][..k] == a[..k];
      var pos := Position(b, a[k]);
      if pos == |b| { r := r + [a[k]]; }
    }
    assert a[..|a|] == a;
  }

  // ----- adding and removing -----

  /** The first element equal to v is left out. */
  function Without(s: seq<Value>, v: Value): (r: seq<Value>)
    ensures forall x :: x in r ==> x in s
  {
    if s == [] then [] else if Equal(s[0], v) then s[1..] else [s[0]] + Without(s[1..], v)
  }

  lemma ContainsFirst(x: Value, s: seq<Value>, w: Value)
    ensures Contains([x] + s, w) <==> Equal(x, w) || Contains(s, w)
  {
    var t := [x] + s;
    if Equal(x, w) || Contains(s, w) { FirstContains(x, s, w); }
    if i :| 0 <= i < |t| && Equal(t[i], w) { assert i == 0 || t[i] == s[i - 1]; }
  }

  lemma FirstContains(x: Value, s: seq<Value>, w: Value)
    requires Equal(x, w) || Contains(s, w)
    ensures Contains([x] + s, w)
  {
    var t := [x] + s;
    if i :| 0 <= i < |s| && Equal(s[i], w) { assert t[i + 1] == s[i]; } else { assert t[0] == x; }
  }

  lemma {:induction false} WithoutDupFree(s: seq<Value>, v: Value)
    requires DupFree(s)
    ensures DupFree(Without(s, v))
  {
    if s != [] && !Equal(s[0], v) {
      WithoutDupFree(s[1..], v);
      var rest := Without(s[1..], v);
      forall i | 0 <= i < |rest| ensures !Equal(s[0], rest[i]) { assert rest[i] in s[1..]; }
    }
  }

  /** Removing takes out exactly the values equal to v, when there are no duplicates. */
  lemma {:induction false} WithoutContains(s: seq<Value>, v: Value, w: Value)
    requires DupFree(s) && AllProper(s) && Proper(v) && Proper(w)
    ensures Contains(Without(s, v), w) <==> Contains(s, w) && !Equal(v, w)
  {
    if s != [] {
      assert s == [s[0]] + s[1..];
      ContainsFirst(s[0], s[1..], w);
      Symmetric(s[0], v);
      Symmetric(v, w);
      if Equal(s[0], v) {
        WithoutFirst(s, v, w);
      } else {
        WithoutContains(s[1..], v, w);
        ContainsFirst(s[0], Without(s[1..], v), w);
        if Equal(s[0], w) && Equal(v, w) { Transitive(s[0], w, v); }
      }
    }
  }

  /** The first element is the one removed. */
  lemma WithoutFirst(s: seq<Value>, v: Value, w: Value)
    requires s != [] && DupFree(s) && AllProper(s) && Proper(v) && Proper(w) && Equal(s[0], v)
    ensures Contains(s[1..], w) <==> (Equal(s[0], w) || Contains(s[1..], w)) && !Equal(v, w)
  {
    if Equal(v, w) {
      Transitive(s[0], v, w);
      if i :| 0 <= i < |s[1..]| && Equal(s[1..][i], w) { SecondDiffers(s, i + 1, w); }
    } else if Equal(s[0], w) {
      Symmetric(s[0], v);
      Transitive(v, s[0], w);
    }
  }

  lemma SecondDiffers(s: seq<Value>, i: nat, w: Value)
    requires 0 < i < |s| && DupFree(s) && AllProper(s) && Proper(w) && Equal(s[0], w)
    ensures !Equal(s[i], w)
  {
    if Equal(s[i], w) {
      Symmetric(s[i], w);
      Transitive(s[0], w, s[i]);
    }
  }

  /** With a duplicate in it, a set still contains what was removed. */
  lemma DuplicateStays(x: Value)
    requires Equal(x, x)
    ensures Contains(Without([x, x], x), x)
  {
    assert Equal([x, x][1..][0], x);
  }

  /** Every operation makes a set without duplicates out of sets without duplicates, nested
      ones included. */
  lemma OperationsKeepProper(a: seq<Value>, b: seq<Value>, v: Value, keep: bool)
    requires Proper(Set(a)) && Proper(Set(b)) && Proper(v)
    ensures Proper(Set(Merged(a, b))) && Proper(Set(Filtered(a, b, keep))) && Proper(Set(With(a, v))) && Proper(Set(Without(a, v)))
  {
    FilteredDupFree(a, b, keep);
    WithoutDupFree(a, v);
    Elements(Set(a));
    Elements(Set(b));
    Together(Merged(a, b));
    Together(Filtered(a, b, keep));
    Together(With(a, v));
    Together(Without(a, v));
  }

  lemma LiteralIsProper(items: seq<Value>)
    requires forall x :: x in items ==> Proper(x)
    ensures Proper(Set(Merged([], items)))
  {
    Together(Merged([], items));
  }

  lemma Elements(a: Value)
    requires a.Set? && Proper(a)
    ensures DupFree(a.items) && forall x :: x in a.items ==> Proper(x)
  {
    forall x | x in a.items ensures Proper(x) {
      var i :| 0 <= i < |a.items| && a.items[i] == x;
      assert Child(a, At(i)) == x;
    }
  }

  lemma Together(s: seq<Value>)
    requires DupFree(s) && forall x :: x in s ==> Proper(x)
    ensures Proper(Set(s))
  {
    forall l | HasChild(Set(s), l) ensures Proper(Child(Set(s), l)) { assert s[l.n] in s; }
  }

  /** The receiver of the set methods that work in place. */
  class SetReceiver {
    var items: seq<Value>

    constructor (items: seq<Value>)
      ensures this.items == items
    {
      this.items := items;
    }

    method Add(v: Value)
      modifies this
      ensures items == With(old(items), v)
    {
      var pos := Position(items, v);
      if pos == |items| { items := items + [v]; }
    }

    method Remove(v: Value)
      modifies this
      ensures items == Without(old(items), v)
    {
      var pos := Position(items, v);
      WithoutAt(items, v, pos);
      if pos < |items| {
        items := items[..pos] + items[pos + 1..];
      }
    }
  }

  lemma {:induction false} WithoutAt(s: seq<Value>, v: Value, pos: nat)
    requires pos <= |s| && forall i :: 0 <= i < pos ==> !Equal(s[i], v)
    requires pos < |s| ==> Equal(s[pos], v)
    ensures Without(s, v) == if pos < |s| then s[..pos] + s[pos + 1..] else s
  {
    if pos > 0 { WithoutAt(s[1..], v, pos - 1); }
  }
}
