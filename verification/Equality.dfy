/** Value equality is an equivalence on values whose sets are free of duplicates. */
module Equality {
  import opened Values

  // ----- distinct numbers below a bound -----

  lemma {:induction false} PigeonHole(f: seq<nat>, m: nat)
    requires forall i :: 0 <= i < |f| ==> f[i] < m
    requires forall i, j :: 0 <= i < j < |f| ==> f[i] != f[j]
    ensures |f| <= m
    ensures |f| == m ==> forall k :: 0 <= k < m ==> k in f
    decreases m
  {
    if f != [] {
      assert 0 <= f[0] < m;
      if i :| 0 <= i < |f| && f[i] == m - 1 {
        var g := f[..i] + f[i + 1..];
        PigeonHole(g, m - 1);
        assert forall k :: k in g ==> k in f;
      } else {
        PigeonHole(f, m - 1);
      }
    }
  }

  // ----- sets -----

  /** Set equality in the order of the source: as many elements, each found in the other set. */
  lemma SetEqual(a: Value, b: Value)
    requires a.Set? && b.Set?
    ensures Equal(a, b) <==> |a.items| == |b.items| && forall i :: 0 <= i < |a.items| ==> Contains(b.items, a.items[i])
  {
    var xs, ys := a.items, b.items;
    forall i | 0 <= i < |xs| ensures AnyRight(xs[i], ys) <==> Contains(ys, xs[i]) { RightContains(xs[i], ys); }
  }

  lemma RightContains(x: Value, ys: seq<Value>)
    ensures AnyRight(x, ys) <==> Contains(ys, x)
  {
    if AnyRight(x, ys) { RightIsContained(x, ys); }
    if Contains(ys, x) { ContainedIsRight(x, ys); }
  }

  lemma RightIsContained(x: Value, ys: seq<Value>)
    requires AnyRight(x, ys)
    ensures Contains(ys, x)
  {
    var j :| 0 <= j < |ys| && Same(x, ys[j], true);
    Flip(x, ys[j]);
    assert Equal(ys[j], x);
  }

  lemma ContainedIsRight(x: Value, ys: seq<Value>)
    requires Contains(ys, x)
    ensures AnyRight(x, ys)
  {
    var j :| 0 <= j < |ys| && Equal(ys[j], x);
    Flip(x, ys[j]);
    assert Same(x, ys[j], true);
  }

  /** Equality is transitive on all values. */
  lemma {:induction false} Transitive(a: Value, b: Value, c: Value)
    requires Equal(a, b) && Equal(b, c)
    ensures Equal(a, c)
    decreases b, 1
  {
    if b.Set? {
      TransitiveItems(a, b, c);
    } else {
      EqualChildren(a, b);
      EqualChildren(b, c);
      forall l | HasChild(a, l) ensures Equal(Child(a, l), Child(c, l)) { Transitive(Child(a, l), Child(b, l), Child(c, l)); }
      TransitiveParts(a, b, c);
    }
  }

  lemma {:induction false} TransitiveItems(a: Value, b: Value, c: Value)
    requires b.Set? && Equal(a, b) && Equal(b, c)
    ensures Equal(a, c)
    decreases b, 0
  {
    forall i, j, k | 0 <= i < |a.items| && 0 <= j < |b.items| && 0 <= k < |c.items|
      && Equal(c.items[k], b.items[j]) && Equal(b.items[j], a.items[i])
      ensures Equal(c.items[k], a.items[i])
    {
      Transitive(c.items[k], b.items[j], a.items[i]);
    }
    TransitiveSets(a, b, c);
  }

  lemma TransitiveParts(a: Value, b: Value, c: Value)
    requires !b.Set? && Equal(a, b) && Equal(b, c)
    requires forall l :: HasChild(a, l) ==> HasChild(c, l) && Equal(Child(a, l), Child(c, l))
    ensures Equal(a, c)
  {
    EqualChildren(a, b);
    EqualChildren(b, c);
    AlikeTransitive(a, b, c);
    FromChildren(a, c);
  }

  lemma TransitiveSets(a: Value, b: Value, c: Value)
    requires a.Set? && b.Set? && c.Set? && Equal(a, b) && Equal(b, c)
    requires forall i, j, k ::
      0 <= i < |a.items| && 0 <= j < |b.items| && 0 <= k < |c.items| && Equal(c.items[k], b.items[j]) && Equal(b.items[j], a.items[i])
      ==> Equal(c.items[k], a.items[i])
    ensures Equal(a, c)
  {
    SetEqual(a, b);
    SetEqual(b, c);
    SetEqual(a, c);
    var xs, ys, zs := a.items, b.items, c.items;
    forall i | 0 <= i < |xs| ensures Contains(zs, xs[i]) {
      var j :| 0 <= j < |ys| && Equal(ys[j], xs[i]);
      assert Contains(zs, ys[j]);
      var k :| 0 <= k < |zs| && Equal(zs[k], ys[j]);
    }
  }

  lemma EqualChildren(a: Value, b: Value)
    requires !a.Set? && Equal(a, b)
    ensures Alike(a, b) && forall l :: HasChild(a, l) ==> HasChild(b, l) && Equal(Child(a, l), Child(b, l))
  {
    Parts(a, b, false);
    AlikeSymmetric(a, b);
    forall l | HasChild(a, l) ensures Equal(Child(a, l), Child(b, l)) { assert SameChild(a, b, false, l); }
  }

  lemma FromChildren(a: Value, b: Value)
    requires !a.Set? && Alike(a, b) && forall l :: HasChild(a, l) ==> HasChild(b, l) && Equal(Child(a, l), Child(b, l))
    ensures Equal(a, b)
  {
    Parts(a, b, false);
  }

  /** No set inside holds duplicates. */
  ghost predicate Proper(v: Value)
    decreases v
  {
    (v.Set? ==> DupFree(v.items)) && forall l {:trigger Child(v, l)} :: HasChild(v, l) ==> Proper(Child(v, l))
  }

  /** Neither functions nor NaN inside. */
  ghost predicate Comparable(v: Value)
    decreases v
  {
    && !v.Fn? && (v.Real? ==> !v.r.NaN?) && (v.Complex? ==> !v.re.NaN? && !v.im.NaN?)
    && forall l {:trigger Child(v, l)} :: HasChild(v, l) ==> Comparable(Child(v, l))
  }

  ghost predicate Mutual(xs: seq<Value>, ys: seq<Value>, i: nat, j: nat)
    requires i < |xs| && j < |ys|
  {
    Equal(xs[i], ys[j]) <==> Equal(ys[j], xs[i])
  }

  ghost predicate BothWays(xs: seq<Value>, ys: seq<Value>) {
    forall i, j {:trigger Mutual(xs, ys, i, j)} :: 0 <= i < |xs| && 0 <= j < |ys| ==> Mutual(xs, ys, i, j)
  }

  /** Equal elements both ways round: each element of ys is found among as many xs without
      duplicates, by counting. */
  lemma MatchAll(xs: seq<Value>, ys: seq<Value>)
    requires |xs| == |ys| && DupFree(xs) && forall i :: 0 <= i < |xs| ==> Contains(ys, xs[i])
    requires BothWays(xs, ys)
    ensures forall j :: 0 <= j < |ys| ==> Contains(xs, ys[j])
  {
    var f := Choice(xs, ys);
    forall i, j | 0 <= i < j < |f| ensures f[i] != f[j] {
      assert Mutual(xs, ys, i, f[i]);
      if f[i] == f[j] { Transitive(xs[i], ys[f[i]], xs[j]); }
    }
    PigeonHole(f, |ys|);
    forall j | 0 <= j < |ys| ensures Contains(xs, ys[j]) {
      assert j in f;
      var i: int :| 0 <= i < |f| && f[i] == j;
      assert Mutual(xs, ys, i, j);
    }
  }

  ghost function Choice(xs: seq<Value>, ys: seq<Value>): (f: seq<nat>)
    requires forall i :: 0 <= i < |xs| ==> Contains(ys, xs[i])
    ensures |f| == |xs| && forall i :: 0 <= i < |f| ==> f[i] < |ys| && Equal(ys[f[i]], xs[i])
  {
    seq(|xs|, i requires 0 <= i < |xs| => assert Contains(ys, xs[i]); var j :| 0 <= j < |ys| && Equal(ys[j], xs[i]); j)
  }

  /** Equality is symmetric when no set inside holds duplicates. */
  lemma {:induction false} Symmetric(a: Value, b: Value)
    requires Proper(a) && Proper(b)
    ensures Equal(a, b) <==> Equal(b, a)
    decreases a
  {
    if a.Set? && b.Set? {
      forall i, j | 0 <= i < |a.items| && 0 <= j < |b.items|
        ensures Mutual(a.items, b.items, i, j) && Mutual(b.items, a.items, j, i)
      {
        assert Child(a, At(i)) == a.items[i] && Child(b, At(j)) == b.items[j];
        Symmetric(a.items[i], b.items[j]);
      }
      SymmetricSets(a, b);
      SymmetricSets(b, a);
    } else if !a.Set? && !b.Set? {
      forall l | HasChild(a, l) && HasChild(b, l) ensures Equal(Child(a, l), Child(b, l)) <==> Equal(Child(b, l), Child(a, l)) {
        Symmetric(Child(a, l), Child(b, l));
      }
      SymmetricParts(a, b);
      SymmetricParts(b, a);
    }
  }

  lemma SymmetricParts(a: Value, b: Value)
    requires !a.Set? && !b.Set?
    requires forall l :: HasChild(a, l) && HasChild(b, l) ==> (Equal(Child(a, l), Child(b, l)) <==> Equal(Child(b, l), Child(a, l)))
    ensures Equal(a, b) ==> Equal(b, a)
  {
    if Equal(a, b) {
      EqualChildren(a, b);
      AlikeSymmetric(a, b);
      FromChildren(b, a);
    }
  }

  lemma SymmetricSets(a: Value, b: Value)
    requires a.Set? && b.Set? && DupFree(a.items) && BothWays(a.items, b.items)
    ensures Equal(a, b) ==> Equal(b, a)
  {
    SetEqual(a, b);
    SetEqual(b, a);
    if Equal(a, b) { MatchAll(a.items, b.items); }
  }

  lemma {:induction false} EqualComparable(a: Value, b: Value)
    requires Proper(a) && Proper(b) && Equal(a, b)
    ensures Comparable(a)
    decreases a
  {
    if a.Set? {
      SetEqual(a, b);
      forall l | HasChild(a, l) ensures Comparable(Child(a, l)) {
        var x := a.items[l.n];
        var j :| 0 <= j < |b.items| && Equal(b.items[j], x);
        assert Child(b, At(j)) == b.items[j] && Child(a, l) == x;
        Symmetric(b.items[j], x);
        EqualComparable(x, b.items[j]);
      }
    } else {
      Parts(a, b, false);
      AlikeSymmetric(a, b);
      forall l | HasChild(a, l) ensures Comparable(Child(a, l)) {
        assert SameChild(a, b, false, l);
        EqualComparable(Child(a, l), Child(b, l));
      }
    }
  }

  lemma {:induction false} ComparableEqual(v: Value)
    requires Comparable(v)
    ensures Equal(v, v)
    decreases v
  {
    if v.Set? {
      SetEqual(v, v);
      forall i | 0 <= i < |v.items| ensures Contains(v.items, v.items[i]) {
        assert Child(v, At(i)) == v.items[i];
        ComparableEqual(v.items[i]);
      }
    } else {
      Parts(v, v, false);
      forall l | HasChild(v, l) ensures SameChild(v, v, false, l) { ComparableEqual(Child(v, l)); }
    }
  }

  /** A value without duplicates in its sets equals itself exactly when it holds neither a
      function nor a NaN. */
  lemma Reflexive(v: Value)
    requires Proper(v)
    ensures Equal(v, v) <==> Comparable(v)
  {
    if Comparable(v) { ComparableEqual(v); }
    if Equal(v, v) { EqualComparable(v, v); }
  }

  /** An integer that equals no element. */
  function Unheld(s: seq<Value>): (n: int)
    ensures forall i :: 0 <= i < |s| && s[i].Int? ==> s[i].i < n
  {
    if s == [] then 0
    else
      var k, m := |s| - 1, Unheld(s[..|s| - 1]);
      if s[k].Int? && s[k].i >= m then s[k].i + 1 else m
  }

  /** With an equal pair in it, a set equals one in which something else stands for the second. */
  lemma Replaced(s: seq<Value>, i: nat, j: nat) returns (t: seq<Value>)
    requires i < j < |s| && Equal(s[i], s[j]) && forall k :: 0 <= k < |s| ==> Proper(s[k]) && Comparable(s[k])
    ensures (forall k :: 0 <= k < |t| ==> Proper(t[k])) && Equal(Set(s), Set(t)) && !Equal(Set(t), Set(s))
  {
    var other := Int(Unheld(s));
    t := s[j := other];
    forall k | 0 <= k < |s| ensures Contains(t, s[k]) {
      ComparableEqual(s[k]);
      assert Equal(t[if k == j then i else k], s[k]);
    }
    SetEqual(Set(s), Set(t));
    NotHeld(s, other);
    SetEqual(Set(t), Set(s));
    assert t[j] == other;
  }

  lemma NotHeld(s: seq<Value>, other: Value)
    requires other == Int(Unheld(s))
    ensures !Contains(s, other)
  {
    forall k | 0 <= k < |s| ensures !Equal(s[k], other) { assert s[k].Int? ==> s[k].i < Unheld(s); }
  }

  /** Exactly the sets without duplicates are equal to whatever set they equal. */
  lemma SymmetricExactly(s: seq<Value>)
    requires forall k :: 0 <= k < |s| ==> Proper(s[k]) && Comparable(s[k])
    ensures DupFree(s) <==>
      forall t: seq<Value> :: (forall k :: 0 <= k < |t| ==> Proper(t[k])) && Equal(Set(s), Set(t)) ==> Equal(Set(t), Set(s))
  {
    if DupFree(s) {
      forall t: seq<Value> | (forall k :: 0 <= k < |t| ==> Proper(t[k])) && Equal(Set(s), Set(t)) ensures Equal(Set(t), Set(s)) {
        forall i, j | 0 <= i < |s| && 0 <= j < |t| ensures Mutual(s, t, i, j) { Symmetric(s[i], t[j]); }
        SymmetricSets(Set(s), Set(t));
      }
    } else {
      var i, j :| 0 <= i < j < |s| && Equal(s[i], s[j]);
      var t := Replaced(s, i, j);
    }
  }

  /** With duplicates equality has a direction: {x, x} equals {x, y} but not the other way. */
  lemma DuplicatesBreakSymmetry(a: Value, b: Value, x: Value, y: Value)
    requires a == Set([x, x]) && b == Set([x, y]) && Equal(x, x) && !Equal(x, y)
    ensures Equal(a, b) && !Equal(b, a)
  {
    var xs, ys := a.items, b.items;
    assert |xs| == |ys| == 2 && xs[0] == xs[1] == ys[0] == x && ys[1] == y;
    assert Contains(ys, x) by { assert Equal(ys[0], x); }
    assert !Contains(xs, ys[1]);
    SetEqual(a, b);
    SetEqual(b, a);
  }
}
