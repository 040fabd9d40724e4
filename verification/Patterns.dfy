/** Pattern matching of the interpreter. */
module Patterns {
  import V = Values

  type Bindings = map<string, V.Value>

  datatype Pattern = Ignore | Ident(name: string) | Rest(name: string) | LitInt(i: int) | LitReal(r: V.Float)
    | LitStr(s: string) | LitBool(b: bool) | ListDestruct(items: seq<Pattern>) | Destruct(fields: seq<FieldPattern>)
    | Variant(name: string, items: seq<Pattern>)

  datatype FieldPattern = FieldPattern(name: string, pat: Pattern)

  // ----- what the matcher does -----

  /** Whether the value matches, and the bindings afterwards: those made before a failure stay. */
  function Match(p: Pattern, v: V.Value, b: Bindings): (bool, Bindings)
    decreases p, 0
  {
    match p
    case Ignore => (true, b)
    case Ident(name) => (true, b[name := v])
    case Rest(name) => (true, b[name := v])
    case LitInt(i) => (v.Int? && v.i == i, b)
    case LitReal(r) => (v.Real? && V.FloatEqual(v.r, r), b)
    case LitStr(s) => (v.Str? && v.s == s, b)
    case LitBool(x) => (v.Bool? && v.b == x, b)
    case ListDestruct(items) => if v.List? then MatchList(items, v.items, 0, b) else (false, b)
    case Destruct(fields) => if v.Struct? || v.Map? then MatchFields(fields, v.fields, b) else (false, b)
    case Variant(name, items) =>
      if v.Variant? && v.name == name && |v.items| == |items| then MatchEach(items, v.items, b) else (false, b)
  }

  /** The list loop with its moving index: a rest pattern takes everything that is left. */
  function MatchList(ps: seq<Pattern>, vs: seq<V.Value>, i: nat, b: Bindings): (bool, Bindings)
    requires i <= |vs|
    decreases ps, 1
  {
    if ps == [] then (i == |vs|, b)
    else if ps[0].Rest? then MatchList(ps[1..], vs, |vs|, b[ps[0].name := V.List(vs[i..])])
    else if i == |vs| then (false, b)
    else
      var (ok, c) := Match(ps[0], vs[i], b);
      if ok then MatchList(ps[1..], vs, i + 1, c) else (false, c)
  }

  function MatchEach(ps: seq<Pattern>, vs: seq<V.Value>, b: Bindings): (bool, Bindings)
    requires |ps| == |vs|
    decreases ps, 1
  {
    if ps == [] then (true, b)
    else
      var (ok, c) := Match(ps[0], vs[0], b);
      if ok then MatchEach(ps[1..], vs[1..], c) else (false, c)
  }

  function MatchFields(fs: seq<FieldPattern>, m: map<string, V.Value>, b: Bindings): (bool, Bindings)
    decreases fs, 1
  {
    if fs == [] then (true, b)
    else if fs[0].name !in m then (false, b)
    else
      var (ok, c) := Match(fs[0].pat, m[fs[0].name], b);
      if ok then MatchFields(fs[1..], m, c) else (false, c)
  }

  // ----- what a pattern means -----

  /** The value is the pattern with its variables replaced: a wildcard stands for any value, a
      field pattern for any value with those fields, a rest for any stretch of a list. */
  ghost predicate Fits(p: Pattern, v: V.Value, s: Bindings)
    decreases p, 0
  {
    match p
    case Ignore => true
    case Ident(name) => name in s && s[name] == v
    case Rest(name) => name in s && s[name] == v
    case LitInt(i) => v == V.Int(i)
    case LitReal(r) => v.Real? && V.FloatEqual(v.r, r)
    case LitStr(t) => v == V.Str(t)
    case LitBool(x) => v == V.Bool(x)
    case ListDestruct(items) => v.List? && FitsList(items, v.items, s)
    case Destruct(fields) =>
      (v.Struct? || v.Map?) && forall k :: 0 <= k < |fields| ==> fields[k].name in v.fields && Fits(fields[k].pat, v.fields[fields[k].name], s)
    case Variant(name, items) =>
      v.Variant? && v.name == name && |v.items| == |items| && forall k :: 0 <= k < |items| ==> Fits(items[k], v.items[k], s)
  }

  ghost predicate FitsList(ps: seq<Pattern>, vs: seq<V.Value>, s: Bindings)
    decreases ps, 1
  {
    if ps == [] then vs == []
    else if ps[0].Rest? then
      ps[0].name in s && exists n :: 0 <= n <= |vs| && s[ps[0].name] == V.List(vs[..n]) && FitsList(ps[1..], vs[n..], s)
    else vs != [] && Fits(ps[0], vs[0], s) && FitsList(ps[1..], vs[1..], s)
  }

  // ----- variables -----

  function Vars(p: Pattern): set<string>
    decreases p, 0
  {
    match p
    case Ident(name) => {name}
    case Rest(name) => {name}
    case ListDestruct(items) => VarsOf(items)
    case Destruct(fields) => VarsOfFields(fields)
    case Variant(_, items) => VarsOf(items)
    case _ => {}
  }

  function VarsOf(ps: seq<Pattern>): set<string>
    decreases ps, 1
  {
    if ps == [] then {} else Vars(ps[0]) + VarsOf(ps[1..])
  }

  function VarsOfFields(fs: seq<FieldPattern>): set<string>
    decreases fs, 1
  {
    if fs == [] then {} else Vars(fs[0].pat) + VarsOfFields(fs[1..])
  }

  /** No variable stands twice. */
  predicate Linear(p: Pattern)
    decreases p, 0
  {
    match p
    case ListDestruct(items) => LinearAll(items)
    case Destruct(fields) => LinearFields(fields)
    case Variant(_, items) => LinearAll(items)
    case _ => true
  }

  predicate LinearAll(ps: seq<Pattern>)
    decreases ps, 1
  {
    ps == [] || (Linear(ps[0]) && LinearAll(ps[1..]) && Vars(ps[0]) !! VarsOf(ps[1..]))
  }

  predicate LinearFields(fs: seq<FieldPattern>)
    decreases fs, 1
  {
    fs == [] || (Linear(fs[0].pat) && LinearFields(fs[1..]) && Vars(fs[0].pat) !! VarsOfFields(fs[1..]))
  }

  /** The variables, each as often as it stands. */
  function Standing(p: Pattern): multiset<string>
    decreases p, 0
  {
    match p
    case Ident(name) => multiset{name}
    case Rest(name) => multiset{name}
    case ListDestruct(items) => StandingIn(items)
    case Destruct(fields) => StandingInFields(fields)
    case Variant(_, items) => StandingIn(items)
    case _ => multiset{}
  }

  function StandingIn(ps: seq<Pattern>): multiset<string>
    decreases ps, 1
  {
    if ps == [] then multiset{} else Standing(ps[0]) + StandingIn(ps[1..])
  }

  function StandingInFields(fs: seq<FieldPattern>): multiset<string>
    decreases fs, 1
  {
    if fs == [] then multiset{} else Standing(fs[0].pat) + StandingInFields(fs[1..])
  }

  ghost predicate Once(m: multiset<string>) { forall x :: m[x] <= 1 }

  ghost predicate Elements(m: multiset<string>, s: set<string>) { forall x :: x in m <==> x in s }

  lemma OnceInBoth(a: multiset<string>, b: multiset<string>, s: set<string>, t: set<string>)
    requires Elements(a, s) && Elements(b, t)
    ensures Elements(a + b, s + t) && (Once(a + b) <==> Once(a) && Once(b) && s !! t)
  {
    assert forall x :: (a + b)[x] == a[x] + b[x];
    if s * t != {} {
      var x :| x in s * t;
      assert (a + b)[x] >= 2;
    }
    if Once(a) && Once(b) && s !! t {
      forall x ensures (a + b)[x] <= 1 { if x in a { assert x in s && x !in t; } }
    }
  }

  /** A pattern is linear exactly if each of its variables stands once. */
  lemma {:induction false} LinearExactly(p: Pattern)
    ensures Elements(Standing(p), Vars(p)) && (Linear(p) <==> Once(Standing(p)))
    decreases p, 0
  {
    match p
    case ListDestruct(items) => LinearAllExactly(items);
    case Destruct(fields) => LinearFieldsExactly(fields);
    case Variant(_, items) => LinearAllExactly(items);
    case _ =>
  }

  lemma {:induction false} LinearAllExactly(ps: seq<Pattern>)
    ensures Elements(StandingIn(ps), VarsOf(ps)) && (LinearAll(ps) <==> Once(StandingIn(ps)))
    decreases ps, 1
  {
    if ps != [] {
      LinearExactly(ps[0]);
      LinearAllExactly(ps[1..]);
      OnceInBoth(Standing(ps[0]), StandingIn(ps[1..]), Vars(ps[0]), VarsOf(ps[1..]));
    }
  }

  lemma {:induction false} LinearFieldsExactly(fs: seq<FieldPattern>)
    ensures Elements(StandingInFields(fs), VarsOfFields(fs)) && (LinearFields(fs) <==> Once(StandingInFields(fs)))
    decreases fs, 1
  {
    if fs != [] {
      LinearExactly(fs[0].pat);
      LinearFieldsExactly(fs[1..]);
      OnceInBoth(Standing(fs[0].pat), StandingInFields(fs[1..]), Vars(fs[0].pat), VarsOfFields(fs[1..]));
    }
  }

  /** Rest patterns stand only at the end of a list. */
  predicate RestLast(p: Pattern)
    decreases p, 0
  {
    match p
    case ListDestruct(items) => forall k :: 0 <= k < |items| ==> RestLast(items[k]) && (items[k].Rest? ==> k == |items| - 1)
    case Destruct(fields) => forall k :: 0 <= k < |fields| ==> RestLast(fields[k].pat)
    case Variant(_, items) => forall k :: 0 <= k < |items| ==> RestLast(items[k])
    case _ => true
  }

  /** In every list, only rests stand behind a rest. */
  predicate Orderly(p: Pattern)
    decreases p, 0
  {
    match p
    case ListDestruct(items) => OrderlyList(items)
    case Destruct(fields) => forall k :: 0 <= k < |fields| ==> Orderly(fields[k].pat)
    case Variant(_, items) => forall k :: 0 <= k < |items| ==> Orderly(items[k])
    case _ => true
  }

  predicate OrderlyList(ps: seq<Pattern>)
    decreases ps, 1
  {
    ps == [] || (Orderly(ps[0]) && OrderlyList(ps[1..]) && (ps[0].Rest? ==> AllRests(ps[1..])))
  }

  predicate AllRests(ps: seq<Pattern>) { ps == [] || (ps[0].Rest? && AllRests(ps[1..])) }

  lemma {:induction false} RestLastOrderly(p: Pattern)
    requires RestLast(p)
    ensures Orderly(p)
    decreases p, 0
  {
    match p
    case ListDestruct(items) => RestLastList(items);
    case Destruct(fields) => forall k | 0 <= k < |fields| ensures Orderly(fields[k].pat) { RestLastOrderly(fields[k].pat); }
    case Variant(_, items) => forall k | 0 <= k < |items| ensures Orderly(items[k]) { RestLastOrderly(items[k]); }
    case _ =>
  }

  lemma {:induction false} RestLastList(ps: seq<Pattern>)
    requires forall k :: 0 <= k < |ps| ==> RestLast(ps[k]) && (ps[k].Rest? ==> k == |ps| - 1)
    ensures OrderlyList(ps)
    decreases ps, 1
  {
    if ps != [] {
      RestLastOrderly(ps[0]);
      RestLastList(ps[1..]);
    }
  }

  // ----- bindings -----

  /** Matching binds the pattern's variables and leaves the others alone. */
  ghost predicate Binds(b: Bindings, c: Bindings, vars: set<string>, all: bool) {
    && b.Keys <= c.Keys <= b.Keys + vars && (all ==> vars <= c.Keys)
    && forall x :: x in b && x !in vars ==> c[x] == b[x]
  }

  lemma {:induction false} MatchBinds(p: Pattern, v: V.Value, b: Bindings)
    ensures Binds(b, Match(p, v, b).1, Vars(p), Match(p, v, b).0)
    decreases p, 0
  {
    match p
    case ListDestruct(items) => if v.List? { MatchListBinds(items, v.items, 0, b); }
    case Destruct(fields) => if v.Struct? || v.Map? { MatchFieldsBinds(fields, v.fields, b); }
    case Variant(_, items) => if v.Variant? && |v.items| == |items| { MatchEachBinds(items, v.items, b); }
    case _ =>
  }

  lemma {:induction false} MatchListBinds(ps: seq<Pattern>, vs: seq<V.Value>, i: nat, b: Bindings)
    requires i <= |vs|
    ensures Binds(b, MatchList(ps, vs, i, b).1, VarsOf(ps), MatchList(ps, vs, i, b).0)
    decreases ps, 1
  {
    if ps != [] {
      if ps[0].Rest? {
        MatchListBinds(ps[1..], vs, |vs|, b[ps[0].name := V.List(vs[i..])]);
      } else if i < |vs| {
        MatchBinds(ps[0], vs[i], b);
        MatchListBinds(ps[1..], vs, i + 1, Match(ps[0], vs[i], b).1);
      }
    }
  }

  lemma {:induction false} MatchEachBinds(ps: seq<Pattern>, vs: seq<V.Value>, b: Bindings)
    requires |ps| == |vs|
    ensures Binds(b, MatchEach(ps, vs, b).1, VarsOf(ps), MatchEach(ps, vs, b).0)
    decreases ps, 1
  {
    if ps != [] {
      MatchBinds(ps[0], vs[0], b);
      MatchEachBinds(ps[1..], vs[1..], Match(ps[0], vs[0], b).1);
    }
  }

  lemma {:induction false} MatchFieldsBinds(fs: seq<FieldPattern>, m: map<string, V.Value>, b: Bindings)
    ensures Binds(b, MatchFields(fs, m, b).1, VarsOfFields(fs), MatchFields(fs, m, b).0)
    decreases fs, 1
  {
    if fs != [] && fs[0].name in m {
      MatchBinds(fs[0].pat, m[fs[0].name], b);
      MatchFieldsBinds(fs[1..], m, Match(fs[0].pat, m[fs[0].name], b).1);
    }
  }

  // ----- a match is a fit -----

  /** Fitting depends on the pattern's variables only. */
  ghost predicate Agrees(s: Bindings, t: Bindings, vars: set<string>) {
    forall x :: x in vars && x in s ==> x in t && t[x] == s[x]
  }

  lemma {:induction false} FitsAgree(p: Pattern, v: V.Value, s: Bindings, t: Bindings)
    requires Fits(p, v, s) && Agrees(s, t, Vars(p))
    ensures Fits(p, v, t)
    decreases p, 0
  {
    match p
    case ListDestruct(items) => FitsListAgree(items, v.items, s, t);
    case Destruct(fields) =>
      forall k | 0 <= k < |fields| ensures Fits(fields[k].pat, v.fields[fields[k].name], t) {
        FieldVars(fields, k);
        FitsAgree(fields[k].pat, v.fields[fields[k].name], s, t);
      }
    case Variant(_, items) =>
      forall k | 0 <= k < |items| ensures Fits(items[k], v.items[k], t) {
        ItemVars(items, k);
        FitsAgree(items[k], v.items[k], s, t);
      }
    case _ =>
  }

  lemma {:induction false} FitsListAgree(ps: seq<Pattern>, vs: seq<V.Value>, s: Bindings, t: Bindings)
    requires FitsList(ps, vs, s) && Agrees(s, t, VarsOf(ps))
    ensures FitsList(ps, vs, t)
    decreases ps, 1
  {
    if ps != [] {
      if ps[0].Rest? {
        var n :| 0 <= n <= |vs| && s[ps[0].name] == V.List(vs[..n]) && FitsList(ps[1..], vs[n..], s);
        assert ps[0].name in Vars(ps[0]);
        FitsListAgree(ps[1..], vs[n..], s, t);
      } else {
        FitsAgree(ps[0], vs[0], s, t);
        FitsListAgree(ps[1..], vs[1..], s, t);
      }
    }
  }

  lemma {:induction false} ItemVars(ps: seq<Pattern>, k: nat)
    requires k < |ps|
    ensures Vars(ps[k]) <= VarsOf(ps)
    decreases |ps|
  {
    if k > 0 { ItemVars(ps[1..], k - 1); }
  }

  lemma {:induction false} FieldVars(fs: seq<FieldPattern>, k: nat)
    requires k < |fs|
    ensures Vars(fs[k].pat) <= VarsOfFields(fs)
    decreases |fs|
  {
    if k > 0 { FieldVars(fs[1..], k - 1); }
  }

  /** When every variable stands once, a match binds them so that the pattern rebuilds the value. */
  lemma {:induction false} Sound(p: Pattern, v: V.Value, b: Bindings)
    requires Linear(p) && Match(p, v, b).0
    ensures Fits(p, v, Match(p, v, b).1)
    decreases p, 0
  {
    match p
    case ListDestruct(items) =>
      SoundList(items, v.items, 0, b);
      assert v.items[0..] == v.items;
    case Destruct(fields) => SoundFields(fields, v.fields, b);
    case Variant(_, items) => SoundEach(items, v.items, b);
    case _ =>
  }

  lemma {:induction false} SoundList(ps: seq<Pattern>, vs: seq<V.Value>, i: nat, b: Bindings)
    requires LinearAll(ps) && i <= |vs| && MatchList(ps, vs, i, b).0
    ensures FitsList(ps, vs[i..], MatchList(ps, vs, i, b).1)
    decreases ps, 1
  {
    var r := MatchList(ps, vs, i, b).1;
    if ps != [] {
      if ps[0].Rest? {
        var c := b[ps[0].name := V.List(vs[i..])];
        SoundList(ps[1..], vs, |vs|, c);
        MatchListBinds(ps[1..], vs, |vs|, c);
        var n := |vs| - i;
        assert ps[0].name in Vars(ps[0]) && vs[i..][..n] == vs[i..] && vs[i..][n..] == vs[|vs|..];
      } else {
        var c := Match(ps[0], vs[i], b).1;
        Sound(ps[0], vs[i], b);
        SoundList(ps[1..], vs, i + 1, c);
        MatchListBinds(ps[1..], vs, i + 1, c);
        MatchBinds(ps[0], vs[i], b);
        FitsAgree(ps[0], vs[i], c, r);
        assert vs[i..][1..] == vs[i + 1..];
      }
    }
  }

  lemma {:induction false} SoundEach(ps: seq<Pattern>, vs: seq<V.Value>, b: Bindings)
    requires LinearAll(ps) && |ps| == |vs| && MatchEach(ps, vs, b).0
    ensures forall k :: 0 <= k < |ps| ==> Fits(ps[k], vs[k], MatchEach(ps, vs, b).1)
    decreases ps, 1
  {
    if ps != [] {
      var c, r := Match(ps[0], vs[0], b).1, MatchEach(ps, vs, b).1;
      Sound(ps[0], vs[0], b);
      SoundEach(ps[1..], vs[1..], c);
      MatchEachBinds(ps[1..], vs[1..], c);
      FitsAgree(ps[0], vs[0], c, r);
      forall k | 0 <= k < |ps| ensures Fits(ps[k], vs[k], r) {
        if k > 0 { assert ps[k] == ps[1..][k - 1] && vs[k] == vs[1..][k - 1]; }
      }
    }
  }

  lemma {:induction false} SoundFields(fs: seq<FieldPattern>, m: map<string, V.Value>, b: Bindings)
    requires LinearFields(fs) && MatchFields(fs, m, b).0
    ensures forall k :: 0 <= k < |fs| ==> fs[k].name in m && Fits(fs[k].pat, m[fs[k].name], MatchFields(fs, m, b).1)
    decreases fs, 1
  {
    if fs != [] {
      var c, r := Match(fs[0].pat, m[fs[0].name], b).1, MatchFields(fs, m, b).1;
      Sound(fs[0].pat, m[fs[0].name], b);
      SoundFields(fs[1..], m, c);
      MatchFieldsBinds(fs[1..], m, c);
      FitsAgree(fs[0].pat, m[fs[0].name], c, r);
      forall k | 0 <= k < |fs| ensures fs[k].name in m && Fits(fs[k].pat, m[fs[k].name], r) {
        if k > 0 { assert fs[k] == fs[1..][k - 1]; }
      }
    }
  }

  // ----- a match is orderly -----

  /** Behind a rest nothing is left, so that only rests can follow. */
  lemma {:induction false} MatchOrderly(p: Pattern, v: V.Value, b: Bindings)
    requires Match(p, v, b).0
    ensures Orderly(p)
    decreases p, 0
  {
    match p
    case ListDestruct(items) => MatchListOrderly(items, v.items, 0, b);
    case Destruct(fields) => MatchFieldsOrderly(fields, v.fields, b);
    case Variant(_, items) => MatchEachOrderly(items, v.items, b);
    case _ =>
  }

  lemma {:induction false} MatchListOrderly(ps: seq<Pattern>, vs: seq<V.Value>, i: nat, b: Bindings)
    requires i <= |vs| && MatchList(ps, vs, i, b).0
    ensures OrderlyList(ps) && (i == |vs| ==> AllRests(ps))
    decreases ps, 1
  {
    if ps != [] {
      if ps[0].Rest? {
        MatchListOrderly(ps[1..], vs, |vs|, b[ps[0].name := V.List(vs[i..])]);
      } else {
        MatchOrderly(ps[0], vs[i], b);
        MatchListOrderly(ps[1..], vs, i + 1, Match(ps[0], vs[i], b).1);
      }
    }
  }

  lemma {:induction false} MatchEachOrderly(ps: seq<Pattern>, vs: seq<V.Value>, b: Bindings)
    requires |ps| == |vs| && MatchEach(ps, vs, b).0
    ensures forall k :: 0 <= k < |ps| ==> Orderly(ps[k])
    decreases ps, 1
  {
    if ps != [] {
      MatchOrderly(ps[0], vs[0], b);
      MatchEachOrderly(ps[1..], vs[1..], Match(ps[0], vs[0], b).1);
      assert forall k :: 0 < k < |ps| ==> ps[k] == ps[1..][k - 1];
    }
  }

  lemma {:induction false} MatchFieldsOrderly(fs: seq<FieldPattern>, m: map<string, V.Value>, b: Bindings)
    requires MatchFields(fs, m, b).0
    ensures forall k :: 0 <= k < |fs| ==> Orderly(fs[k].pat)
    decreases fs, 1
  {
    if fs != [] {
      MatchOrderly(fs[0].pat, m[fs[0].name], b);
      MatchFieldsOrderly(fs[1..], m, Match(fs[0].pat, m[fs[0].name], b).1);
      assert forall k :: 0 < k < |fs| ==> fs[k] == fs[1..][k - 1];
    }
  }

  // ----- a fit is a match -----

  /** Two rests at the end of a list meet elements that could go to either. */
  predicate Loose(p: Pattern, v: V.Value)
    decreases p, 0
  {
    match p
    case ListDestruct(items) => v.List? && LooseList(items, v.items)
    case Destruct(fields) =>
      (v.Struct? || v.Map?) && exists k :: 0 <= k < |fields| && fields[k].name in v.fields && Loose(fields[k].pat, v.fields[fields[k].name])
    case Variant(_, items) => v.Variant? && |v.items| == |items| && exists k :: 0 <= k < |items| && Loose(items[k], v.items[k])
    case _ => false
  }

  predicate LooseList(ps: seq<Pattern>, vs: seq<V.Value>)
    decreases ps, 1
  {
    ps != [] && vs != [] && (if ps[0].Rest? then |ps| > 1 else Loose(ps[0], vs[0]) || LooseList(ps[1..], vs[1..]))
  }

  /** Whatever fits an orderly pattern is found, and unless elements could go to either of two rests,
      with the same bindings. */
  lemma {:induction false} Complete(p: Pattern, v: V.Value, s: Bindings, b: Bindings)
    requires Orderly(p) && Fits(p, v, s)
    ensures Match(p, v, b).0 && (!Loose(p, v) ==> Agrees(s, Match(p, v, b).1, Vars(p)))
    decreases p, 0
  {
    MatchBinds(p, v, b);
    match p
    case ListDestruct(items) =>
      assert v.items[0..] == v.items;
      CompleteList(items, v.items, 0, s, b);
    case Destruct(fields) => CompleteFields(fields, v.fields, s, b);
    case Variant(_, items) => CompleteEach(items, v.items, s, b);
    case _ =>
  }

  lemma {:induction false} CompleteList(ps: seq<Pattern>, vs: seq<V.Value>, i: nat, s: Bindings, b: Bindings)
    requires i <= |vs| && FitsList(ps, vs[i..], s) && OrderlyList(ps)
    ensures MatchList(ps, vs, i, b).0 && (!LooseList(ps, vs[i..]) ==> Agrees(s, MatchList(ps, vs, i, b).1, VarsOf(ps)))
    decreases ps, 1
  {
    if ps != [] {
      if ps[0].Rest? {
        RestsMatch(ps, vs, i, b);
        if |ps| == 1 || i == |vs| { RestsAgree(ps, vs, i, s, b); }
      } else {
        var c := Match(ps[0], vs[i], b).1;
        Complete(ps[0], vs[i], s, b);
        assert vs[i..][1..] == vs[i + 1..];
        CompleteList(ps[1..], vs, i + 1, s, c);
        MatchListBinds(ps[1..], vs, i + 1, c);
      }
    }
  }

  lemma {:induction false} RestsMatch(ps: seq<Pattern>, vs: seq<V.Value>, i: nat, b: Bindings)
    requires i <= |vs| && AllRests(ps) && (ps == [] ==> i == |vs|)
    ensures MatchList(ps, vs, i, b).0
    decreases ps
  {
    if ps != [] { RestsMatch(ps[1..], vs, |vs|, b[ps[0].name := V.List(vs[i..])]); }
  }

  /** One rest takes all that is left, and of nothing every rest takes nothing. */
  lemma {:induction false} RestsAgree(ps: seq<Pattern>, vs: seq<V.Value>, i: nat, s: Bindings, b: Bindings)
    requires i <= |vs| && AllRests(ps) && FitsList(ps, vs[i..], s) && (|ps| == 1 || i == |vs|)
    ensures Agrees(s, MatchList(ps, vs, i, b).1, VarsOf(ps))
    decreases ps
  {
    if ps != [] {
      var left, c := vs[i..], b[ps[0].name := V.List(vs[i..])];
      var n :| 0 <= n <= |left| && s[ps[0].name] == V.List(left[..n]) && FitsList(ps[1..], left[n..], s);
      assert |ps| == 1 ==> ps[1..] == [];
      assert n == |left| && left[..n] == left && left[n..] == vs[|vs|..];
      RestsAgree(ps[1..], vs, |vs|, s, c);
      MatchListBinds(ps[1..], vs, |vs|, c);
    }
  }

  lemma {:induction false} CompleteEach(ps: seq<Pattern>, vs: seq<V.Value>, s: Bindings, b: Bindings)
    requires |ps| == |vs| && forall k :: 0 <= k < |ps| ==> Orderly(ps[k]) && Fits(ps[k], vs[k], s)
    ensures MatchEach(ps, vs, b).0
    ensures (forall k :: 0 <= k < |ps| ==> !Loose(ps[k], vs[k])) ==> Agrees(s, MatchEach(ps, vs, b).1, VarsOf(ps))
    decreases ps, 1
  {
    if ps != [] {
      var c := Match(ps[0], vs[0], b).1;
      Complete(ps[0], vs[0], s, b);
      CompleteEach(ps[1..], vs[1..], s, c);
      MatchEachBinds(ps[1..], vs[1..], c);
      assert forall k :: 0 < k < |ps| ==> ps[k] == ps[1..][k - 1] && vs[k] == vs[1..][k - 1];
    }
  }

  lemma {:induction false} CompleteFields(fs: seq<FieldPattern>, m: map<string, V.Value>, s: Bindings, b: Bindings)
    requires forall k :: 0 <= k < |fs| ==> Orderly(fs[k].pat) && fs[k].name in m && Fits(fs[k].pat, m[fs[k].name], s)
    ensures MatchFields(fs, m, b).0
    ensures (forall k :: 0 <= k < |fs| ==> !Loose(fs[k].pat, m[fs[k].name])) ==> Agrees(s, MatchFields(fs, m, b).1, VarsOfFields(fs))
    decreases fs, 1
  {
    if fs != [] {
      var c := Match(fs[0].pat, m[fs[0].name], b).1;
      Complete(fs[0].pat, m[fs[0].name], s, b);
      CompleteFields(fs[1..], m, s, c);
      MatchFieldsBinds(fs[1..], m, c);
      assert forall k :: 0 < k < |fs| ==> fs[k] == fs[1..][k - 1];
    }
  }

  ghost predicate Fitting(p: Pattern, v: V.Value) { exists s :: Fits(p, v, s) }

  /** When no variable stands twice, a match from empty bindings succeeds exactly when some assignment
      fits and nothing but rests stands behind a rest; it then binds exactly the pattern's variables, to
      an assignment that fits. */
  lemma MatchIsFit(p: Pattern, v: V.Value)
    requires Linear(p)
    ensures Match(p, v, map[]).0 <==> Fitting(p, v) && Orderly(p)
    ensures Match(p, v, map[]).0 ==> Match(p, v, map[]).1.Keys == Vars(p) && Fits(p, v, Match(p, v, map[]).1)
  {
    var r := Match(p, v, map[]).1;
    MatchBinds(p, v, map[]);
    if Match(p, v, map[]).0 { MatchFits(p, v, r); }
    if Fitting(p, v) && Orderly(p) { FitMatches(p, v); }
  }

  lemma FitMatches(p: Pattern, v: V.Value)
    requires Orderly(p) && Fitting(p, v)
    ensures Match(p, v, map[]).0
  {
    var s :| Fits(p, v, s);
    Complete(p, v, s, map[]);
  }

  lemma MatchFits(p: Pattern, v: V.Value, r: Bindings)
    requires Linear(p) && Match(p, v, map[]) == (true, r)
    ensures Fits(p, v, r) && Fitting(p, v) && Orderly(p)
  {
    Sound(p, v, map[]);
    MatchOrderly(p, v, map[]);
  }

  // ----- how many assignments fit -----

  /** The first rest takes all, the others nothing. */
  function Taken(ps: seq<Pattern>, vs: seq<V.Value>, s: Bindings): Bindings
    requires AllRests(ps)
  {
    if ps == [] then s else Taken(ps[1..], [], s)[ps[0].name := V.List(vs)]
  }

  /** Equal on the names that are not the pattern's. */
  ghost predicate Beside(s: Bindings, t: Bindings, vars: set<string>) {
    forall x :: x in s && x !in vars ==> x in t && t[x] == s[x]
  }

  lemma {:induction false} TakenFits(ps: seq<Pattern>, vs: seq<V.Value>, s: Bindings)
    requires AllRests(ps) && LinearAll(ps) && (ps == [] ==> vs == [])
    ensures FitsList(ps, vs, Taken(ps, vs, s)) && Beside(s, Taken(ps, vs, s), VarsOf(ps))
    decreases ps
  {
    if ps != [] {
      var t, n := Taken(ps[1..], [], s), |vs|;
      TakenFits(ps[1..], [], s);
      FitsListAgree(ps[1..], [], t, Taken(ps, vs, s));
      assert vs[..n] == vs && vs[n..] == [];
    }
  }

  /** The second rest takes all. */
  lemma SecondTakes(ps: seq<Pattern>, vs: seq<V.Value>, s: Bindings) returns (t: Bindings)
    requires AllRests(ps) && LinearAll(ps) && |ps| > 1
    ensures FitsList(ps, vs, t) && Beside(s, t, VarsOf(ps)) && t[ps[0].name] == V.List([])
  {
    var u, n := Taken(ps[1..], vs, s), 0;
    t := u[ps[0].name := V.List([])];
    TakenFits(ps[1..], vs, s);
    FitsListAgree(ps[1..], vs, u, t);
    assert vs[..n] == [] && vs[n..] == vs;
  }

  /** Two assignments give a variable of the pattern different values. */
  ghost predicate Differ(s: Bindings, t: Bindings, vars: set<string>) {
    exists x :: x in vars && x in s && x in t && s[x] != t[x]
  }

  lemma {:induction false} OtherFit(p: Pattern, v: V.Value, s: Bindings) returns (t: Bindings)
    requires Linear(p) && Orderly(p) && Fits(p, v, s) && Loose(p, v)
    ensures Fits(p, v, t) && Beside(s, t, Vars(p)) && Differ(s, t, Vars(p))
    decreases p, 0
  {
    match p
    case ListDestruct(items) => t := OtherList(items, v.items, s);
    case Destruct(fields) => t := OtherField(fields, v, s);
    case Variant(_, items) => t := OtherItem(items, v.items, s);
  }

  lemma {:induction false} OtherList(ps: seq<Pattern>, vs: seq<V.Value>, s: Bindings) returns (t: Bindings)
    requires LinearAll(ps) && OrderlyList(ps) && FitsList(ps, vs, s) && LooseList(ps, vs)
    ensures FitsList(ps, vs, t) && Beside(s, t, VarsOf(ps)) && Differ(s, t, VarsOf(ps))
    decreases ps, 1
  {
    if ps[0].Rest? {
      if s[ps[0].name] == V.List(vs) {
        t := SecondTakes(ps, vs, s);
      } else {
        t := Taken(ps, vs, s);
        TakenFits(ps, vs, s);
      }
      assert ps[0].name in VarsOf(ps);
    } else if Loose(ps[0], vs[0]) {
      t := OtherFit(ps[0], vs[0], s);
      FitsListAgree(ps[1..], vs[1..], s, t);
    } else {
      t := OtherList(ps[1..], vs[1..], s);
      FitsAgree(ps[0], vs[0], s, t);
    }
  }

  lemma {:induction false} OtherItem(ps: seq<Pattern>, vs: seq<V.Value>, s: Bindings) returns (t: Bindings)
    requires LinearAll(ps) && |ps| == |vs| && (forall k :: 0 <= k < |ps| ==> Orderly(ps[k]) && Fits(ps[k], vs[k], s))
    requires exists k :: 0 <= k < |ps| && Loose(ps[k], vs[k])
    ensures (forall k :: 0 <= k < |ps| ==> Fits(ps[k], vs[k], t)) && Beside(s, t, VarsOf(ps)) && Differ(s, t, VarsOf(ps))
    decreases ps, 1
  {
    var j :| 0 <= j < |ps| && Loose(ps[j], vs[j]);
    ItemLinear(ps, j);
    t := OtherFit(ps[j], vs[j], s);
    forall k | 0 <= k < |ps| ensures Fits(ps[k], vs[k], t) {
      if k != j {
        ItemsApart(ps, j, k);
        FitsAgree(ps[k], vs[k], s, t);
      }
    }
  }

  lemma {:induction false} OtherField(fs: seq<FieldPattern>, v: V.Value, s: Bindings) returns (t: Bindings)
    requires LinearFields(fs) && (v.Struct? || v.Map?) && Fits(Destruct(fs), v, s)
    requires forall k :: 0 <= k < |fs| ==> Orderly(fs[k].pat)
    requires exists k :: 0 <= k < |fs| && Loose(fs[k].pat, v.fields[fs[k].name])
    ensures Fits(Destruct(fs), v, t) && Beside(s, t, VarsOfFields(fs)) && Differ(s, t, VarsOfFields(fs))
    decreases fs, 1
  {
    var j :| 0 <= j < |fs| && Loose(fs[j].pat, v.fields[fs[j].name]);
    FieldLinear(fs, j);
    t := OtherFit(fs[j].pat, v.fields[fs[j].name], s);
    forall k | 0 <= k < |fs| ensures Fits(fs[k].pat, v.fields[fs[k].name], t) {
      if k != j {
        FieldsApart(fs, j, k);
        FitsAgree(fs[k].pat, v.fields[fs[k].name], s, t);
      }
    }
  }

  lemma {:induction false} ItemLinear(ps: seq<Pattern>, k: nat)
    requires LinearAll(ps) && k < |ps|
    ensures Linear(ps[k]) && Vars(ps[k]) <= VarsOf(ps)
    decreases |ps|
  {
    if k > 0 { ItemLinear(ps[1..], k - 1); }
  }

  lemma {:induction false} FieldLinear(fs: seq<FieldPattern>, k: nat)
    requires LinearFields(fs) && k < |fs|
    ensures Linear(fs[k].pat) && Vars(fs[k].pat) <= VarsOfFields(fs)
    decreases |fs|
  {
    if k > 0 { FieldLinear(fs[1..], k - 1); }
  }

  lemma {:induction false} ItemsApart(ps: seq<Pattern>, j: nat, k: nat)
    requires LinearAll(ps) && j < |ps| && k < |ps| && j != k
    ensures Vars(ps[j]) !! Vars(ps[k])
    decreases |ps|
  {
    if j == 0 { ItemVars(ps[1..], k - 1); } else if k == 0 { ItemVars(ps[1..], j - 1); } else { ItemsApart(ps[1..], j - 1, k - 1); }
  }

  lemma {:induction false} FieldsApart(fs: seq<FieldPattern>, j: nat, k: nat)
    requires LinearFields(fs) && j < |fs| && k < |fs| && j != k
    ensures Vars(fs[j].pat) !! Vars(fs[k].pat)
    decreases |fs|
  {
    if j == 0 { FieldVars(fs[1..], k - 1); } else if k == 0 { FieldVars(fs[1..], j - 1); } else { FieldsApart(fs[1..], j - 1, k - 1); }
  }

  /** What a match binds is the only assignment that fits, unless elements could go to either of two
      rests. */
  lemma FitIsUnique(p: Pattern, v: V.Value)
    requires Linear(p) && Match(p, v, map[]).0
    ensures (forall s :: Fits(p, v, s) ==> Agrees(s, Match(p, v, map[]).1, Vars(p))) <==> !Loose(p, v)
  {
    var r := Match(p, v, map[]).1;
    MatchFits(p, v, r);
    if Loose(p, v) {
      var t := OtherFit(p, v, r);
      assert Fits(p, v, t) && !Agrees(t, r, Vars(p));
    } else {
      forall s | Fits(p, v, s) ensures Agrees(s, r, Vars(p)) {
        Complete(p, v, s, map[]);
      }
    }
  }

  // ----- variables that stand twice -----

  type Meeting = (string, V.Value)

  /** What each variable is met with. */
  ghost function Met(p: Pattern, v: V.Value): set<Meeting>
    decreases p, 0
  {
    match p
    case Ident(name) => {(name, v)}
    case Rest(name) => {(name, v)}
    case ListDestruct(items) => if v.List? then MetList(items, v.items) else {}
    case Destruct(fields) => if v.Struct? || v.Map? then MetFields(fields, v.fields) else {}
    case Variant(_, items) => if v.Variant? && |v.items| == |items| then MetEach(items, v.items) else {}
    case _ => {}
  }

  ghost function MetList(ps: seq<Pattern>, vs: seq<V.Value>): set<Meeting>
    decreases ps, 1
  {
    if ps == [] then {}
    else if ps[0].Rest? then {(ps[0].name, V.List(vs))} + MetList(ps[1..], [])
    else if vs == [] then {}
    else Met(ps[0], vs[0]) + MetList(ps[1..], vs[1..])
  }

  ghost function MetEach(ps: seq<Pattern>, vs: seq<V.Value>): set<Meeting>
    requires |ps| == |vs|
    decreases ps, 1
  {
    if ps == [] then {} else Met(ps[0], vs[0]) + MetEach(ps[1..], vs[1..])
  }

  ghost function MetFields(fs: seq<FieldPattern>, m: map<string, V.Value>): set<Meeting>
    decreases fs, 1
  {
    if fs == [] then {} else (if fs[0].name in m then Met(fs[0].pat, m[fs[0].name]) else {}) + MetFields(fs[1..], m)
  }

  /** No variable is met with two different values. */
  ghost predicate OneValueEach(met: set<Meeting>) {
    forall q, r :: q in met && r in met && q.0 == r.0 ==> q.1 == r.1
  }

  ghost predicate Holds(met: set<Meeting>, s: Bindings) {
    forall q :: q in met ==> q.0 in s && s[q.0] == q.1
  }

  lemma {:induction false} FitsMet(p: Pattern, v: V.Value, s: Bindings)
    requires RestLast(p) && Fits(p, v, s)
    ensures Holds(Met(p, v), s)
    decreases p, 0
  {
    match p
    case ListDestruct(items) => FitsMetList(items, v.items, s);
    case Destruct(fields) => FitsMetFields(fields, v.fields, s);
    case Variant(_, items) => FitsMetEach(items, v.items, s);
    case _ =>
  }

  lemma {:induction false} FitsMetList(ps: seq<Pattern>, vs: seq<V.Value>, s: Bindings)
    requires FitsList(ps, vs, s)
    requires forall k :: 0 <= k < |ps| ==> RestLast(ps[k]) && (ps[k].Rest? ==> k == |ps| - 1)
    ensures Holds(MetList(ps, vs), s)
    decreases ps, 1
  {
    if ps != [] {
      if ps[0].Rest? {
        var n :| 0 <= n <= |vs| && s[ps[0].name] == V.List(vs[..n]) && FitsList(ps[1..], vs[n..], s);
        assert ps[1..] == [] && vs[..n] == vs;
      } else {
        FitsMet(ps[0], vs[0], s);
        FitsMetList(ps[1..], vs[1..], s);
      }
    }
  }

  lemma {:induction false} FitsMetEach(ps: seq<Pattern>, vs: seq<V.Value>, s: Bindings)
    requires |ps| == |vs| && forall k :: 0 <= k < |ps| ==> RestLast(ps[k]) && Fits(ps[k], vs[k], s)
    ensures Holds(MetEach(ps, vs), s)
    decreases ps, 1
  {
    if ps != [] {
      FitsMet(ps[0], vs[0], s);
      FitsMetEach(ps[1..], vs[1..], s);
    }
  }

  lemma {:induction false} FitsMetFields(fs: seq<FieldPattern>, m: map<string, V.Value>, s: Bindings)
    requires forall k :: 0 <= k < |fs| ==> RestLast(fs[k].pat) && fs[k].name in m && Fits(fs[k].pat, m[fs[k].name], s)
    ensures Holds(MetFields(fs, m), s)
    decreases fs, 1
  {
    if fs != [] {
      FitsMet(fs[0].pat, m[fs[0].name], s);
      FitsMetFields(fs[1..], m, s);
    }
  }

  lemma {:induction false} MetFits(p: Pattern, v: V.Value, b: Bindings, s: Bindings)
    requires Match(p, v, b).0 && Holds(Met(p, v), s)
    ensures Fits(p, v, s)
    decreases p, 0
  {
    match p
    case Ident(name) => assert (name, v) in Met(p, v);
    case Rest(name) => assert (name, v) in Met(p, v);
    case ListDestruct(items) =>
      assert v.items[0..] == v.items;
      MetFitsList(items, v.items, 0, b, s);
    case Destruct(fields) => MetFitsFields(fields, v.fields, b, s);
    case Variant(_, items) => MetFitsEach(items, v.items, b, s);
    case _ =>
  }

  lemma {:induction false} MetFitsList(ps: seq<Pattern>, vs: seq<V.Value>, i: nat, b: Bindings, s: Bindings)
    requires i <= |vs| && MatchList(ps, vs, i, b).0 && Holds(MetList(ps, vs[i..]), s)
    ensures FitsList(ps, vs[i..], s)
    decreases ps, 1
  {
    if ps != [] {
      if ps[0].Rest? {
        var left, n := vs[i..], |vs| - i;
        assert (ps[0].name, V.List(left)) in MetList(ps, left);
        MetFitsList(ps[1..], vs, |vs|, b[ps[0].name := V.List(left)], s);
        assert left[..n] == left && left[n..] == vs[|vs|..];
      } else {
        assert vs[i..][1..] == vs[i + 1..];
        MetFits(ps[0], vs[i], b, s);
        MetFitsList(ps[1..], vs, i + 1, Match(ps[0], vs[i], b).1, s);
      }
    }
  }

  lemma {:induction false} MetFitsEach(ps: seq<Pattern>, vs: seq<V.Value>, b: Bindings, s: Bindings)
    requires |ps| == |vs| && MatchEach(ps, vs, b).0 && Holds(MetEach(ps, vs), s)
    ensures forall k :: 0 <= k < |ps| ==> Fits(ps[k], vs[k], s)
    decreases ps, 1
  {
    if ps != [] {
      MetFits(ps[0], vs[0], b, s);
      MetFitsEach(ps[1..], vs[1..], Match(ps[0], vs[0], b).1, s);
      forall k | 0 <= k < |ps| ensures Fits(ps[k], vs[k], s) {
        if k > 0 { assert ps[k] == ps[1..][k - 1] && vs[k] == vs[1..][k - 1]; }
      }
    }
  }

  lemma {:induction false} MetFitsFields(fs: seq<FieldPattern>, m: map<string, V.Value>, b: Bindings, s: Bindings)
    requires MatchFields(fs, m, b).0 && Holds(MetFields(fs, m), s)
    ensures forall k :: 0 <= k < |fs| ==> fs[k].name in m && Fits(fs[k].pat, m[fs[k].name], s)
    decreases fs, 1
  {
    if fs != [] {
      MetFits(fs[0].pat, m[fs[0].name], b, s);
      MetFitsFields(fs[1..], m, Match(fs[0].pat, m[fs[0].name], b).1, s);
      forall k | 0 <= k < |fs| ensures fs[k].name in m && Fits(fs[k].pat, m[fs[k].name], s) {
        if k > 0 { assert fs[k] == fs[1..][k - 1]; }
      }
    }
  }

  ghost function ValueOf(met: set<Meeting>, x: string): V.Value
    requires exists q :: q in met && q.0 == x
  {
    var q :| q in met && q.0 == x; q.1
  }

  lemma OneAssignment(met: set<Meeting>) returns (s: Bindings)
    requires OneValueEach(met)
    ensures Holds(met, s)
  {
    s := map x | x in set q | q in met :: q.0 :: ValueOf(met, x);
  }

  lemma FitsOneEach(p: Pattern, v: V.Value, s: Bindings)
    requires RestLast(p) && Fits(p, v, s)
    ensures Match(p, v, map[]).0 && OneValueEach(Met(p, v))
  {
    RestLastOrderly(p);
    Complete(p, v, s, map[]);
    FitsMet(p, v, s);
  }

  lemma OneEachFits(p: Pattern, v: V.Value)
    requires Match(p, v, map[]).0 && OneValueEach(Met(p, v))
    ensures Fitting(p, v)
  {
    var s := OneAssignment(Met(p, v));
    MetFits(p, v, map[], s);
  }

  /** With rests only at the end of lists, a variable may stand any number of times: some assignment
      fits exactly when the match succeeds and no variable was met with two different values. */
  lemma FitsExactly(p: Pattern, v: V.Value)
    requires RestLast(p)
    ensures Fitting(p, v) <==> Match(p, v, map[]).0 && OneValueEach(Met(p, v))
  {
    if Fitting(p, v) {
      var s :| Fits(p, v, s);
      FitsOneEach(p, v, s);
    } else if Match(p, v, map[]).0 && OneValueEach(Met(p, v)) {
      OneEachFits(p, v);
    }
  }

  /** A variable that stands twice takes its last value: two different elements match. */
  lemma RepeatedVariable(x: string, v: V.Value, w: V.Value)
    requires v != w
    ensures var p, l := ListDestruct([Ident(x), Ident(x)]), V.List([v, w]);
      Match(p, l, map[]).0 && !Fitting(p, l)
  {
    var ps, vs := [Ident(x), Ident(x)], [v, w];
    assert ps[1..] == [Ident(x)] && ps[1..][1..] == [] && vs[1..] == [w] && vs[1..][1..] == [];
    assert MatchList(ps[1..], vs, 1, map[x := v]).0;
    assert MatchList(ps, vs, 0, map[]).0;
    assert (x, v) in Met(ps[0], v) && (x, w) in Met(ps[1..][0], w);
    assert (x, v) in MetList(ps, vs) && (x, w) in MetList(ps[1..], vs[1..]);
    FitsExactly(ListDestruct(ps), V.List(vs));
  }

  // ----- something behind a rest -----

  /** A pattern with anything but rests behind a rest matches no value at all. */
  lemma Disorderly(p: Pattern, v: V.Value, b: Bindings)
    requires !Orderly(p)
    ensures !Match(p, v, b).0
  {
    if Match(p, v, b).0 { MatchOrderly(p, v, b); }
  }

  /** For example, [...x, y] matches no list, although an assignment fits every list that is not empty. */
  lemma RestInFront(x: string, y: string, vs: seq<V.Value>)
    requires vs != [] && x != y
    ensures var p := ListDestruct([Rest(x), Ident(y)]);
      !Match(p, V.List(vs), map[]).0 && Fitting(p, V.List(vs))
  {
    var ps, n := [Rest(x), Ident(y)], |vs| - 1;
    var s: Bindings := map[x := V.List(vs[..n]), y := vs[n]];
    assert ps[1..] == [Ident(y)] && vs[n..] == [vs[n]];
    assert FitsList([Ident(y)][1..], vs[n..][1..], s);
    assert FitsList(ps[1..], vs[n..], s);
    assert FitsList(ps, vs, s);
    assert Fits(ListDestruct(ps), V.List(vs), s);
    Disorderly(ListDestruct(ps), V.List(vs), map[]);
  }

  // ----- the method -----

  method MatchPattern(p: Pattern, v: V.Value, bindings: Bindings) returns (ok: bool, b: Bindings)
    ensures (ok, b) == Match(p, v, bindings)
    decreases p
  {
    b := bindings;
    match p
    case Ignore => return true, b;
    case Ident(name) => return true, b[name := v];
    case Rest(name) => return true, b[name := v];
    case LitInt(i) => return v.Int? && v.i == i, b;
    case LitReal(r) => return v.Real? && V.FloatEqual(v.r, r), b;
    case LitStr(s) => return v.Str? && v.s == s, b;
    case LitBool(x) => return v.Bool? && v.b == x, b;
    case ListDestruct(items) =>
      if !v.List? { return false, b; }
      var i: nat := 0;
      for k := 0 to |items|
        invariant i <= |v.items| && MatchList(items, v.items, 0, bindings) == MatchList(items[k..], v.items, i, b)
      {
        assert items[k..][1..] == items[k + 1..];
        if items[k].Rest? {
          b := b[items[k].name := V.List(v.items[i..])];
          i := |v.items|;
        } else {
          if i >= |v.items| { return false, b; }
          ok, b := MatchPattern(items[k], v.items[i], b);
          if !ok { return false, b; }
          i := i + 1;
        }
      }
      return i == |v.items|, b;
    case Destruct(fields) =>
      if !v.Struct? && !v.Map? { return false, b; }
      for k := 0 to |fields|
        invariant MatchFields(fields, v.fields, bindings) == MatchFields(fields[k..], v.fields, b)
      {
        assert fields[k..][1..] == fields[k + 1..];
        if fields[k].name !in v.fields { return false, b; }
        ok, b := MatchPattern(fields[k].pat, v.fields[fields[k].name], b);
        if !ok { return false, b; }
      }
      return true, b;
    case Variant(name, items) =>
      if !v.Variant? || v.name != name || |v.items| != |items| { return false, b; }
      for k := 0 to |items|
        invariant MatchEach(items, v.items, bindings) == MatchEach(items[k..], v.items[k..], b)
      {
        assert items[k..][1..] == items[k + 1..] && v.items[k..][1..] == v.items[k + 1..];
        ok, b := MatchPattern(items[k], v.items[k], b);
        if !ok { return false, b; }
      }
      return true, b;
  }
}
