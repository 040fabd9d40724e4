/** Facts about the interpreter alone: what the stack of frames means as one map, and what
    every statement keeps of it. */
module FrameFacts {
  import opened Int64
  import opened Ast
  import opened Interp

  type Env = map<Name, int64>

  /** The visible variables. */
  function Flat(frames: seq<Frame>): Env {
    if frames == [] then map[] else Flat(frames[..|frames| - 1]) + frames[|frames| - 1]
  }

  predicate NoShadow(frames: seq<Frame>) {
    frames == [] ||
    (NoShadow(frames[..|frames| - 1]) && Flat(frames[..|frames| - 1]).Keys !! frames[|frames| - 1].Keys)
  }

  function Init(frames: seq<Frame>): seq<Frame>
    requires frames != []
  {
    frames[..|frames| - 1]
  }

  /** Exactly the names of the scope are visible, none of them twice. */
  predicate Tidy(frames: seq<Frame>, scope: set<Name>) {
    frames != [] && NoShadow(frames) && Flat(frames).Keys == scope
  }

  lemma {:induction false} GetVarFlat(frames: seq<Frame>, x: Name)
    ensures GetVar(frames, x) == if x in Flat(frames) then Ok(Flat(frames)[x]) else Err(NotFound(x))
  {
    if frames != [] {
      GetVarFlat(Init(frames), x);
    }
  }

  lemma {:induction false} BoundFlat(frames: seq<Frame>, x: Name)
    ensures Bound(frames, x) <==> x in Flat(frames)
  {
    if frames != [] {
      var n := |frames| - 1;
      BoundFlat(frames[..n], x);
      assert forall i :: 0 <= i < n ==> frames[..n][i] == frames[i];
    }
  }

  lemma PushFlat(frames: seq<Frame>, top: Frame)
    ensures Flat(frames + [top]) == Flat(frames) + top
    ensures Init(frames + [top]) == frames
  {
    assert (frames + [top])[..|frames|] == frames;
  }

  lemma DeclareFlat(frames: seq<Frame>, x: Name, v: int64)
    requires frames != []
    ensures Flat(Declare(frames, x, v)) == Flat(frames)[x := v]
    ensures Init(Declare(frames, x, v)) == Init(frames)
    ensures NoShadow(frames) && x !in Flat(frames) ==> NoShadow(Declare(frames, x, v))
  {
    var n := |frames| - 1;
    var r := Declare(frames, x, v);
    assert r[..n] == frames[..n];
    assert r[n] == frames[n][x := v];
  }

  /** Every frame holds the same names in both stacks. */
  predicate SameNames(f: seq<Frame>, r: seq<Frame>) {
    |f| == |r| && forall i :: 0 <= i < |f| ==> f[i].Keys == r[i].Keys
  }

  lemma {:induction false} SameNamesTidy(f: seq<Frame>, r: seq<Frame>)
    requires SameNames(f, r)
    ensures Flat(f).Keys == Flat(r).Keys && (NoShadow(f) ==> NoShadow(r))
  {
    if f != [] {
      assert SameNames(Init(f), Init(r));
      SameNamesTidy(Init(f), Init(r));
      assert f[|f| - 1].Keys == r[|r| - 1].Keys;
    }
  }

  lemma {:induction false} UpdateNames(frames: seq<Frame>, x: Name, v: int64)
    requires x in Flat(frames)
    ensures SameNames(frames, Update(frames, x, v))
  {
    var n := |frames| - 1;
    if x !in frames[n] {
      UpdateNames(frames[..n], x, v);
      forall i | 0 <= i < n ensures frames[i].Keys == Update(frames, x, v)[i].Keys {
        assert frames[..n][i] == frames[i];
      }
    }
  }

  lemma {:induction false} UpdateFlat(frames: seq<Frame>, x: Name, v: int64)
    requires x in Flat(frames)
    ensures Flat(Update(frames, x, v)) == Flat(frames)[x := v]
  {
    var n := |frames| - 1;
    var r := Update(frames, x, v);
    if x in frames[n] {
      assert r[..n] == frames[..n];
    } else {
      UpdateFlat(frames[..n], x, v);
      assert r[..n] == Update(frames[..n], x, v) && r[n] == frames[n];
    }
  }

  // ----- every statement keeps the discipline -----

  lemma AssignKeeps(frames: seq<Frame>, x: Name, v: int64, scope: set<Name>)
    requires Tidy(frames, scope) && x in scope
    ensures Tidy(SetVar(frames, x, v), scope) && SameNames(frames, SetVar(frames, x, v))
  {
    BoundFlat(frames, x);
    UpdateNames(frames, x, v);
    SameNamesTidy(frames, SetVar(frames, x, v));
  }

  /** A declaration adds its name to the top frame; nothing else adds or removes a name. */
  lemma {:induction false} ExecKeeps(s: Stmt, st: State, fuel: nat, scope: set<Name>)
    requires Tidy(st.frames, scope) && Scoped(s, scope) && Exec(s, st, fuel).Ok?
    ensures var r := Exec(s, st, fuel).value.frames;
      Tidy(r, ScopeAfter(s, scope)) && SameNames(Init(st.frames), Init(r)) && (!s.Decl? ==> SameNames(st.frames, r))
    decreases fuel, s, 5
  {
    if s.Decl? {
      DeclareFlat(st.frames, s.name, EvalExpr(s.value, st.frames).value);
    } else {
      OtherKeeps(s, st, fuel, scope);
      SameInit(st.frames, Exec(s, st, fuel).value.frames);
    }
  }

  lemma SameInit(f: seq<Frame>, r: seq<Frame>)
    requires f != [] && SameNames(f, r)
    ensures SameNames(Init(f), Init(r))
  {}

  lemma SameTwice(f: seq<Frame>, g: seq<Frame>, r: seq<Frame>)
    requires SameNames(f, g) && SameNames(g, r)
    ensures SameNames(f, r)
  {}

  /** A statement that is no declaration keeps all names. */
  lemma {:induction false} OtherKeeps(s: Stmt, st: State, fuel: nat, scope: set<Name>)
    requires Tidy(st.frames, scope) && Scoped(s, scope) && Exec(s, st, fuel).Ok? && !s.Decl?
    ensures var r := Exec(s, st, fuel).value.frames; Tidy(r, scope) && SameNames(st.frames, r)
    decreases fuel, s, 4
  {
    match s
    case Assign(x, e) => AssignKeeps(st.frames, x, EvalExpr(e, st.frames).value, scope);
    case Print(_) =>
    case If(c, thn, els) =>
      var t := EvalCond(c, st.frames).value;
      ScopeKeeps(map[], if t.b then thn else els, st.(notes := st.notes + t.notes), fuel, scope, scope);
    case While(c, body) => WhileKeeps(c, body, st, fuel, scope);
    case For(x, it, body) =>
      var bounds := EvalIter(it, st.frames).value;
      var st1 := st.(notes := st.notes + if bounds.Differ() then {IterationsDiffer} else {});
      ForKeeps(x, bounds.Values(), body, st1, fuel, scope);
  }

  lemma {:induction false} WhileKeeps(c: Cond, body: seq<Stmt>, st: State, fuel: nat, scope: set<Name>)
    requires Tidy(st.frames, scope) && ScopedBlock(body, scope) && Exec(While(c, body), st, fuel).Ok?
    ensures var r := Exec(While(c, body), st, fuel).value.frames; Tidy(r, scope) && SameNames(st.frames, r)
    decreases fuel, While(c, body), 3
  {
    var t := EvalCond(c, st.frames).value;
    if t.b {
      var st1 := st.(notes := st.notes + t.notes);
      var st2 := ExecScope(map[], body, st1, fuel - 1).value;
      ScopeKeeps(map[], body, st1, fuel - 1, scope, scope);
      WhileKeeps(c, body, st2, fuel - 1, scope);
      SameTwice(st.frames, st2.frames, Exec(While(c, body), st, fuel).value.frames);
    }
  }

  lemma {:induction false} BlockKeeps(b: seq<Stmt>, st: State, fuel: nat, scope: set<Name>)
    requires Tidy(st.frames, scope) && ScopedBlock(b, scope) && ExecBlock(b, st, fuel).Ok?
    ensures SameNames(Init(st.frames), Init(ExecBlock(b, st, fuel).value.frames))
    ensures NoShadow(ExecBlock(b, st, fuel).value.frames)
    ensures scope <= Flat(ExecBlock(b, st, fuel).value.frames).Keys
    decreases fuel, b, 1
  {
    if b != [] {
      ExecKeeps(b[0], st, fuel, scope);
      BlockKeeps(b[1..], Exec(b[0], st, fuel).value, fuel, ScopeAfter(b[0], scope));
    }
  }

  lemma {:induction false} ScopeKeeps(top: Frame, b: seq<Stmt>, st: State, fuel: nat, scope: set<Name>, inner: set<Name>)
    requires Tidy(st.frames, scope) && scope !! top.Keys && inner == scope + top.Keys && ScopedBlock(b, inner)
    requires ExecScope(top, b, st, fuel).Ok?
    ensures var r := ExecScope(top, b, st, fuel).value.frames; Tidy(r, scope) && SameNames(st.frames, r)
    decreases fuel, b, 2
  {
    PushFlat(st.frames, top);
    BlockKeeps(b, st.(frames := st.frames + [top]), fuel, inner);
    SameNamesTidy(st.frames, ExecScope(top, b, st, fuel).value.frames);
  }

  lemma {:induction false} ForKeeps(x: Name, vs: seq<int64>, b: seq<Stmt>, st: State, fuel: nat, scope: set<Name>)
    requires Tidy(st.frames, scope) && x !in scope && ScopedBlock(b, scope + {x})
    requires ExecFor(x, vs, b, st, fuel).Ok?
    ensures var r := ExecFor(x, vs, b, st, fuel).value.frames; Tidy(r, scope) && SameNames(st.frames, r)
    decreases fuel, b, 3, |vs|
  {
    if vs != [] {
      ScopeKeeps(map[x := vs[0]], b, st, fuel, scope, scope + {x});
      ForKeeps(x, vs[1..], b, ExecScope(map[x := vs[0]], b, st, fuel).value, fuel, scope);
    }
  }

  // ----- notes -----

  /** Notes are never removed, so a run without a note at its end has none on the way. */
  lemma {:induction false} ExecNotes(s: Stmt, st: State, fuel: nat)
    requires st.frames != [] && Exec(s, st, fuel).Ok?
    ensures st.notes <= Exec(s, st, fuel).value.notes
    decreases fuel, s, 0
  {
    match s
    case If(c, thn, els) =>
      var t := EvalCond(c, st.frames).value;
      ScopeNotes(map[], if t.b then thn else els, st.(notes := st.notes + t.notes), fuel);
    case While(c, body) =>
      var t := EvalCond(c, st.frames).value;
      if t.b {
        var st1 := st.(notes := st.notes + t.notes);
        ScopeNotes(map[], body, st1, fuel - 1);
        ExecNotes(s, ExecScope(map[], body, st1, fuel - 1).value, fuel - 1);
      }
    case For(x, it, body) =>
      var bounds := EvalIter(it, st.frames).value;
      ForNotes(x, bounds.Values(), body, st.(notes := st.notes + if bounds.Differ() then {IterationsDiffer} else {}), fuel);
    case _ =>
  }

  lemma {:induction false} BlockNotes(b: seq<Stmt>, st: State, fuel: nat)
    requires st.frames != [] && ExecBlock(b, st, fuel).Ok?
    ensures st.notes <= ExecBlock(b, st, fuel).value.notes
    decreases fuel, b, 1
  {
    if b != [] {
      ExecNotes(b[0], st, fuel);
      BlockNotes(b[1..], Exec(b[0], st, fuel).value, fuel);
    }
  }

  lemma {:induction false} ScopeNotes(top: Frame, b: seq<Stmt>, st: State, fuel: nat)
    requires st.frames != [] && ExecScope(top, b, st, fuel).Ok?
    ensures st.notes <= ExecScope(top, b, st, fuel).value.notes
    decreases fuel, b, 2
  {
    BlockNotes(b, st.(frames := st.frames + [top]), fuel);
  }

  lemma {:induction false} ForNotes(x: Name, vs: seq<int64>, b: seq<Stmt>, st: State, fuel: nat)
    requires st.frames != [] && ExecFor(x, vs, b, st, fuel).Ok?
    ensures st.notes <= ExecFor(x, vs, b, st, fuel).value.notes
    decreases fuel, b, 3, |vs|
  {
    if vs != [] {
      ScopeNotes(map[x := vs[0]], b, st, fuel);
      ForNotes(x, vs[1..], b, ExecScope(map[x := vs[0]], b, st, fuel).value, fuel);
    }
  }

  /** A condition is noted exactly if the order of two compared integers that round to one float
      matters to the operator; integers up to 2^53 in magnitude are never noted. */
  lemma NotedExactly(op: CmpOp, l: Expr, r: Expr, frames: seq<Frame>)
    requires EvalExpr(l, frames).Ok? && EvalExpr(r, frames).Ok?
    ensures var a, b, c := EvalExpr(l, frames).value, EvalExpr(r, frames).value, EvalCond(Cmp(op, l, r), frames);
      && c.Ok? && c.value.b == CompareF64(op, a, b)
      && (c.value.notes == {} || c.value.notes == {RoundedCompare})
      && (c.value.notes != {} <==> a != b && ToF64(a) == ToF64(b) && (op.Lt? || op.Ge? <==> a < b))
      && (Small(a) && Small(b) ==> c.value.notes == {})
  {
    var a, b := EvalExpr(l, frames).value, EvalExpr(r, frames).value;
    if Small(a) { SmallFloat(a); }
    if Small(b) { SmallFloat(b); }
  }

  predicate Small(a: int) { -0x20_0000_0000_0000 < a < 0x20_0000_0000_0000 }

  lemma SmallFloat(a: int)
    requires Small(a)
    ensures ToF64(a) == a
  {
    if a < 0 { RoundExact(-a); } else { RoundExact(a); }
  }

  /** Negation and constants note nothing of their own. */
  lemma NotedInside(c: Cond, frames: seq<Frame>, b: bool)
    ensures EvalCond(LitBool(b), frames) == Ok(Truth(b, {}))
    ensures EvalCond(c, frames).Ok? ==> var t, u := EvalCond(c, frames).value, EvalCond(Not(c), frames); u == Ok(Truth(!t.b, t.notes))
  {}

  /** No comparison. */
  predicate Constant(c: Cond) { match c case LitBool(_) => true case Not(d) => Constant(d) case Cmp(_, _, _) => false }

  predicate Compares(s: Stmt)
    decreases s, 0
  {
    match s
    case If(c, thn, els) => !Constant(c) || ComparesIn(thn) || ComparesIn(els)
    case While(c, body) => !Constant(c) || ComparesIn(body)
    case For(_, _, body) => ComparesIn(body)
    case _ => false
  }

  predicate ComparesIn(b: seq<Stmt>)
    decreases b, 1
  {
    b != [] && (Compares(b[0]) || ComparesIn(b[1..]))
  }

  predicate Iterates(s: Stmt)
    decreases s, 0
  {
    match s
    case If(_, thn, els) => IteratesIn(thn) || IteratesIn(els)
    case While(_, body) => IteratesIn(body)
    case For(_, _, _) => true
    case _ => false
  }

  predicate IteratesIn(b: seq<Stmt>)
    decreases b, 1
  {
    b != [] && (Iterates(b[0]) || IteratesIn(b[1..]))
  }

  lemma {:induction false} ConstantUnnoted(c: Cond, frames: seq<Frame>)
    requires Constant(c)
    ensures EvalCond(c, frames).Ok? && EvalCond(c, frames).value.notes == {}
    decreases c
  {
    if c.Not? { ConstantUnnoted(c.negated, frames); }
  }

  lemma CondNotes(c: Cond, frames: seq<Frame>)
    requires EvalCond(c, frames).Ok?
    ensures EvalCond(c, frames).value.notes <= {RoundedCompare}
  {}

  /** What a run may have added to the notes. */
  predicate Adds(before: set<Note>, after: set<Note>, compares: bool, iterates: bool) {
    && (RoundedCompare in after ==> RoundedCompare in before || compares)
    && (IterationsDiffer in after ==> IterationsDiffer in before || iterates)
  }

  /** Only comparisons and `for` loops leave notes: a run of a program without comparisons never notes
      rounding, one without `for` never a difference of iterations. */
  lemma {:induction false} OnlyTheseNote(s: Stmt, st: State, fuel: nat)
    requires st.frames != [] && Exec(s, st, fuel).Ok?
    ensures Adds(st.notes, Exec(s, st, fuel).value.notes, Compares(s), Iterates(s))
    decreases fuel, s, 0
  {
    match s
    case If(c, thn, els) =>
      var t := EvalCond(c, st.frames).value;
      CondNotes(c, st.frames);
      if Constant(c) { ConstantUnnoted(c, st.frames); }
      OnlyTheseInScope(map[], if t.b then thn else els, st.(notes := st.notes + t.notes), fuel);
    case While(c, body) =>
      var t := EvalCond(c, st.frames).value;
      CondNotes(c, st.frames);
      if Constant(c) { ConstantUnnoted(c, st.frames); }
      if t.b {
        var st1 := st.(notes := st.notes + t.notes);
        OnlyTheseInScope(map[], body, st1, fuel - 1);
        OnlyTheseNote(s, ExecScope(map[], body, st1, fuel - 1).value, fuel - 1);
      }
    case For(x, it, body) =>
      var bounds := EvalIter(it, st.frames).value;
      OnlyTheseInFor(x, bounds.Values(), body, st.(notes := st.notes + if bounds.Differ() then {IterationsDiffer} else {}), fuel);
    case _ =>
  }

  lemma {:induction false} OnlyTheseInBlock(b: seq<Stmt>, st: State, fuel: nat)
    requires st.frames != [] && ExecBlock(b, st, fuel).Ok?
    ensures Adds(st.notes, ExecBlock(b, st, fuel).value.notes, ComparesIn(b), IteratesIn(b))
    decreases fuel, b, 1
  {
    if b != [] {
      OnlyTheseNote(b[0], st, fuel);
      OnlyTheseInBlock(b[1..], Exec(b[0], st, fuel).value, fuel);
    }
  }

  lemma {:induction false} OnlyTheseInScope(top: Frame, b: seq<Stmt>, st: State, fuel: nat)
    requires st.frames != [] && ExecScope(top, b, st, fuel).Ok?
    ensures Adds(st.notes, ExecScope(top, b, st, fuel).value.notes, ComparesIn(b), IteratesIn(b))
    decreases fuel, b, 2
  {
    OnlyTheseInBlock(b, st.(frames := st.frames + [top]), fuel);
  }

  lemma {:induction false} OnlyTheseInFor(x: Name, vs: seq<int64>, b: seq<Stmt>, st: State, fuel: nat)
    requires st.frames != [] && ExecFor(x, vs, b, st, fuel).Ok?
    ensures Adds(st.notes, ExecFor(x, vs, b, st, fuel).value.notes, ComparesIn(b), IteratesIn(b))
    decreases fuel, b, 3, |vs|
  {
    if vs != [] {
      OnlyTheseInScope(map[x := vs[0]], b, st, fuel);
      OnlyTheseInFor(x, vs[1..], b, ExecScope(map[x := vs[0]], b, st, fuel).value, fuel);
    }
  }

  /** A `for` is noted exactly if it counts to a number that is not negative, or ranges from another
      start than 0 or to a negative bound. */
  lemma ForNoted(x: Name, it: Iter, st: State, fuel: nat)
    requires st.frames != [] && EvalIter(it, st.frames).Ok? && Exec(For(x, it, []), st, fuel).Ok?
    ensures var differs := match EvalIter(it, st.frames).value case Count(n) => n >= 0 case FromTo(a, b) => a != 0 || b < 0;
      IterationsDiffer in Exec(For(x, it, []), st, fuel).value.notes <==> IterationsDiffer in st.notes || differs
  {
    var bounds := EvalIter(it, st.frames).value;
    var st1 := st.(notes := st.notes + if bounds.Differ() then {IterationsDiffer} else {});
    OnlyTheseInFor(x, bounds.Values(), [], st1, fuel);
    ForNotes(x, bounds.Values(), [], st1, fuel);
  }
}
