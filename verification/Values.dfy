/** Runtime values and their equality. */
module Values {

  /** A double, as far as equality looks at it. */
  datatype Float = NaN | Infinite(negative: bool) | Zero(negative: bool) | Finite(value: real)

  /** IEEE equality: NaN equals nothing, the two zeros are equal. */
  predicate FloatEqual(a: Float, b: Float) {
    match a
    case NaN => false
    case Zero(_) => b.Zero?
    case _ => a == b
  }

  /** Two doubles are equal exactly if they are the same and a number, or both a zero. */
  lemma FloatsEqual(a: Float, b: Float)
    ensures FloatEqual(a, b) <==> (a == b && a != NaN) || (a in {Zero(true), Zero(false)} && b in {Zero(true), Zero(false)})
  {}

  datatype Value = Int(i: int) | Real(r: Float) | Bool(b: bool) | Str(s: string) | Char(c: char)
    | Range(start: int, end: int, isChar: bool) | List(items: seq<Value>) | Struct(name: string, fields: map<string, Value>)
    | Tuple(items: seq<Value>) | Dict(pairs: seq<(Value, Value)>) | Set(items: seq<Value>) | Map(fields: map<string, Value>)
    | Complex(re: Float, im: Float) | Instance(name: string, items: seq<Value>) | Variant(name: string, items: seq<Value>)
    | Fn(id: nat) | Result(ok: bool, inner: Value) | Null | None_

  /** `a == b`, or `b == a` when swapped. Looking for x among the elements of a set asks
      `element == x`, so the sides change places at every set. */
  predicate Same(a: Value, b: Value, swapped: bool)
    decreases a, 0
  {
    match a
    case Int(i) => b.Int? && i == b.i
    case Real(r) => b.Real? && FloatEqual(r, b.r)
    case Bool(x) => b.Bool? && x == b.b
    case Str(s) => b.Str? && s == b.s
    case Char(c) => b.Char? && c == b.c
    case Range(start, end, _) => b.Range? && start == b.start && end == b.end
    case List(items) => b.List? && |items| == |b.items| && forall k :: 0 <= k < |items| ==> Same(items[k], b.items[k], swapped)
    case Tuple(items) => b.Tuple? && |items| == |b.items| && forall k :: 0 <= k < |items| ==> Same(items[k], b.items[k], swapped)
    case Struct(name, fields) =>
      b.Struct? && name == b.name && fields.Keys == b.fields.Keys && forall k :: k in fields ==> Same(fields[k], b.fields[k], swapped)
    case Map(fields) => b.Map? && fields.Keys == b.fields.Keys && forall k :: k in fields ==> Same(fields[k], b.fields[k], swapped)
    case Dict(pairs) =>
      b.Dict? && |pairs| == |b.pairs| && forall k :: 0 <= k < |pairs| ==>
        Same(pairs[k].0, b.pairs[k].0, swapped) && Same(pairs[k].1, b.pairs[k].1, swapped)
    case Set(items) =>
      b.Set? && |items| == |b.items|
      && if swapped then forall j :: 0 <= j < |b.items| ==> AnyLeft(items, b.items[j])
         else forall i :: 0 <= i < |items| ==> AnyRight(items[i], b.items)
    case Complex(re, im) => b.Complex? && FloatEqual(re, b.re) && FloatEqual(im, b.im)
    case Instance(name, items) =>
      b.Instance? && name == b.name && |items| == |b.items| && forall k :: 0 <= k < |items| ==> Same(items[k], b.items[k], swapped)
    case Variant(name, items) =>
      b.Variant? && name == b.name && |items| == |b.items| && forall k :: 0 <= k < |items| ==> Same(items[k], b.items[k], swapped)
    case Fn(_) => false
    case Result(ok, inner) => b.Result? && ok == b.ok && Same(inner, b.inner, swapped)
    case Null => b.Null?
    case None_ => b.None_?
  }

  /** Some x equals y. */
  predicate AnyLeft(xs: seq<Value>, y: Value)
    decreases xs, 1
  {
    exists i :: 0 <= i < |xs| && Same(xs[i], y, false)
  }

  /** Some y equals x. */
  predicate AnyRight(x: Value, ys: seq<Value>)
    decreases x, 1
  {
    exists j :: 0 <= j < |ys| && Same(x, ys[j], true)
  }

  predicate Equal(a: Value, b: Value) { Same(a, b, false) }

  /** `contains` on the elements of a set. */
  predicate Contains(s: seq<Value>, x: Value) { exists j :: 0 <= j < |s| && Equal(s[j], x) }

  /** No element equals a later one. */
  predicate DupFree(s: seq<Value>) { forall i, j :: 0 <= i < j < |s| ==> !Equal(s[i], s[j]) }

  // ----- children -----

  datatype Label = At(n: nat) | Second(n: nat) | Field(name: string)

  predicate HasChild(v: Value, l: Label) {
    match v
    case List(items) => l.At? && l.n < |items|
    case Tuple(items) => l.At? && l.n < |items|
    case Set(items) => l.At? && l.n < |items|
    case Instance(_, items) => l.At? && l.n < |items|
    case Variant(_, items) => l.At? && l.n < |items|
    case Struct(_, fields) => l.Field? && l.name in fields
    case Map(fields) => l.Field? && l.name in fields
    case Dict(pairs) => !l.Field? && l.n < |pairs|
    case Result(_, _) => l == At(0)
    case _ => false
  }

  function Child(v: Value, l: Label): (c: Value)
    requires HasChild(v, l)
    ensures c < v
  {
    match v
    case List(items) => items[l.n]
    case Tuple(items) => items[l.n]
    case Set(items) => items[l.n]
    case Instance(_, items) => items[l.n]
    case Variant(_, items) => items[l.n]
    case Struct(_, fields) => fields[l.name]
    case Map(fields) => fields[l.name]
    case Dict(pairs) => if l.At? then pairs[l.n].0 else pairs[l.n].1
    case Result(_, inner) => inner
  }

  /** Equal but for the children. */
  predicate Alike(a: Value, b: Value) {
    match a
    case Int(i) => b.Int? && i == b.i
    case Real(r) => b.Real? && FloatEqual(r, b.r)
    case Bool(x) => b.Bool? && x == b.b
    case Str(s) => b.Str? && s == b.s
    case Char(c) => b.Char? && c == b.c
    case Range(start, end, _) => b.Range? && start == b.start && end == b.end
    case List(items) => b.List? && |items| == |b.items|
    case Tuple(items) => b.Tuple? && |items| == |b.items|
    case Struct(name, fields) => b.Struct? && name == b.name && fields.Keys == b.fields.Keys
    case Map(fields) => b.Map? && fields.Keys == b.fields.Keys
    case Dict(pairs) => b.Dict? && |pairs| == |b.pairs|
    case Set(items) => b.Set? && |items| == |b.items|
    case Complex(re, im) => b.Complex? && FloatEqual(re, b.re) && FloatEqual(im, b.im)
    case Instance(name, items) => b.Instance? && name == b.name && |items| == |b.items|
    case Variant(name, items) => b.Variant? && name == b.name && |items| == |b.items|
    case Fn(_) => false
    case Result(ok, _) => b.Result? && ok == b.ok
    case Null => b.Null?
    case None_ => b.None_?
  }

  /** Equality of the children under one label. */
  predicate SameChild(a: Value, b: Value, swapped: bool, l: Label)
    requires HasChild(a, l) && HasChild(b, l)
  {
    Same(Child(a, l), Child(b, l), swapped)
  }

  ghost predicate SameChildren(a: Value, b: Value, swapped: bool)
    requires Alike(a, b)
  {
    forall l {:trigger SameChild(a, b, swapped, l)} :: HasChild(a, l) ==> SameChild(a, b, swapped, l)
  }

  /** Outside sets, values are equal when they are alike and their children are equal. */
  lemma Parts(a: Value, b: Value, swapped: bool)
    requires !a.Set?
    ensures Same(a, b, swapped) <==> Alike(a, b) && SameChildren(a, b, swapped)
  {
    if a.Dict? {
      PairParts(a, b, swapped);
    } else if a.Struct? || a.Map? {
      FieldParts(a, b, swapped);
    } else if a.List? || a.Tuple? || a.Instance? || a.Variant? {
      ItemParts(a, b, swapped);
    } else {
      FewParts(a, b, swapped);
    }
  }

  lemma PairParts(a: Value, b: Value, swapped: bool)
    requires a.Dict?
    ensures Same(a, b, swapped) <==> Alike(a, b) && SameChildren(a, b, swapped)
  {
    if Alike(a, b) && SameChildren(a, b, swapped) {
      forall k | 0 <= k < |a.pairs| ensures Same(a.pairs[k].0, b.pairs[k].0, swapped) && Same(a.pairs[k].1, b.pairs[k].1, swapped) {
        assert SameChild(a, b, swapped, At(k)) && SameChild(a, b, swapped, Second(k));
      }
    }
  }

  lemma FieldParts(a: Value, b: Value, swapped: bool)
    requires a.Struct? || a.Map?
    ensures Same(a, b, swapped) <==> Alike(a, b) && SameChildren(a, b, swapped)
  {
    if Alike(a, b) && SameChildren(a, b, swapped) {
      forall k | k in a.fields ensures Same(a.fields[k], b.fields[k], swapped) { assert SameChild(a, b, swapped, Field(k)); }
    }
  }

  lemma ItemParts(a: Value, b: Value, swapped: bool)
    requires a.List? || a.Tuple? || a.Instance? || a.Variant?
    ensures Same(a, b, swapped) <==> Alike(a, b) && SameChildren(a, b, swapped)
  {
    if Alike(a, b) && SameChildren(a, b, swapped) { ItemsSame(a, b, swapped); }
    if Same(a, b, swapped) { SameItems(a, b, swapped); }
  }

  lemma SameItems(a: Value, b: Value, swapped: bool)
    requires (a.List? || a.Tuple? || a.Instance? || a.Variant?) && Same(a, b, swapped)
    ensures Alike(a, b) && SameChildren(a, b, swapped)
  {}

  lemma ItemsSame(a: Value, b: Value, swapped: bool)
    requires (a.List? || a.Tuple? || a.Instance? || a.Variant?) && Alike(a, b) && SameChildren(a, b, swapped)
    ensures Same(a, b, swapped)
  {
    forall k | 0 <= k < |a.items| ensures Same(a.items[k], b.items[k], swapped) { assert SameChild(a, b, swapped, At(k)); }
  }

  lemma FewParts(a: Value, b: Value, swapped: bool)
    requires !a.Dict? && !a.Struct? && !a.Map? && !a.List? && !a.Tuple? && !a.Instance? && !a.Variant? && !a.Set?
    ensures Same(a, b, swapped) <==> Alike(a, b) && SameChildren(a, b, swapped)
  {
    if a.Result? && Alike(a, b) && SameChildren(a, b, swapped) { assert SameChild(a, b, swapped, At(0)); }
  }

  lemma AlikeSymmetric(a: Value, b: Value)
    requires Alike(a, b)
    ensures Alike(b, a) && forall l :: HasChild(a, l) <==> HasChild(b, l)
  {}

  lemma AlikeTransitive(a: Value, b: Value, c: Value)
    requires Alike(a, b) && Alike(b, c)
    ensures Alike(a, c)
  {}

  /** Swapping the sides and the flag changes nothing. */
  lemma {:induction false} Flip(a: Value, b: Value)
    ensures forall s :: Same(a, b, s) <==> Same(b, a, !s)
    decreases a, 1
  {
    if Alike(a, b) {
      AlikeSymmetric(a, b);
      if a.Set? { FlipItems(a, b); } else { FlipChildren(a, b); }
    } else if Alike(b, a) {
      AlikeSymmetric(b, a);
    }
  }

  lemma {:induction false} FlipChildren(a: Value, b: Value)
    requires !a.Set? && Alike(a, b)
    ensures forall s :: Same(a, b, s) <==> Same(b, a, !s)
    decreases a, 0
  {
    AlikeSymmetric(a, b);
    forall l | HasChild(a, l) ensures forall s :: Same(Child(a, l), Child(b, l), s) <==> Same(Child(b, l), Child(a, l), !s) {
      Flip(Child(a, l), Child(b, l));
    }
    FlipParts(a, b, true);
    FlipParts(a, b, false);
  }

  lemma {:induction false} FlipItems(a: Value, b: Value)
    requires a.Set? && Alike(a, b)
    ensures forall s :: Same(a, b, s) <==> Same(b, a, !s)
    decreases a, 0
  {
    forall i, j | 0 <= i < |a.items| && 0 <= j < |b.items|
      ensures forall s :: Same(a.items[i], b.items[j], s) <==> Same(b.items[j], a.items[i], !s)
    {
      Flip(a.items[i], b.items[j]);
    }
    FlipSets(a, b);
    FlipSets(b, a);
    forall s ensures Same(a, b, s) <==> Same(b, a, !s) { if s {} }
  }

  lemma FlipParts(a: Value, b: Value, s: bool)
    requires !a.Set? && Alike(a, b) && Alike(b, a) && forall l :: HasChild(a, l) <==> HasChild(b, l)
    requires forall l, s :: HasChild(a, l) ==> (Same(Child(a, l), Child(b, l), s) <==> Same(Child(b, l), Child(a, l), !s))
    ensures Same(a, b, s) <==> Same(b, a, !s)
  {
    Parts(a, b, s);
    Parts(b, a, !s);
    FlipEach(a, b, s);
  }

  lemma FlipEach(a: Value, b: Value, s: bool)
    requires Alike(a, b) && Alike(b, a) && forall l :: HasChild(a, l) <==> HasChild(b, l)
    requires forall l, s :: HasChild(a, l) ==> (Same(Child(a, l), Child(b, l), s) <==> Same(Child(b, l), Child(a, l), !s))
    ensures SameChildren(a, b, s) <==> SameChildren(b, a, !s)
  {
    forall l | HasChild(a, l) ensures SameChild(a, b, s, l) <==> SameChild(b, a, !s, l) {}
  }

  lemma FlipSets(a: Value, b: Value)
    requires a.Set? && b.Set? && |a.items| == |b.items|
    requires forall i, j :: 0 <= i < |a.items| && 0 <= j < |b.items| ==>
      (Same(a.items[i], b.items[j], false) <==> Same(b.items[j], a.items[i], true))
    ensures Same(a, b, true) <==> Same(b, a, false)
  {
    var xs, ys := a.items, b.items;
    forall j | 0 <= j < |ys| ensures AnyLeft(xs, ys[j]) <==> AnyRight(ys[j], xs) {
      if AnyLeft(xs, ys[j]) { var i :| 0 <= i < |xs| && Same(xs[i], ys[j], false); }
      if AnyRight(ys[j], xs) { var i :| 0 <= i < |xs| && Same(ys[j], xs[i], true); }
    }
  }
}
