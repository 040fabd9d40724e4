/** What the constructs of the interpreter mean, said by programs and their results. */
module ControlLaws {
  import opened Wrappers
  import opened Control

  // ----- variables -----

  /** After an assignment the name has the value and every other name the one it had; an unknown name
      is set in the top frame alone. */
  lemma AssignedVariable(s: State, x: Name, v: Val, y: Name)
    requires Sane(s)
    ensures var t := SetVar(s, x, v);
      && GetVar(t, x) == Some(v) && (y != x ==> GetVar(t, y) == GetVar(s, y))
      && (GetVar(s, x) == None ==> t.frames[..|t.frames| - 1] == s.frames[..|s.frames| - 1] && t.globals == s.globals)
      && (Get(s.frames, x).Some? ==> t.globals == s.globals) && (Get(s.frames, x).None? && x in s.globals ==> t.frames == s.frames)
  {
    if Get(s.frames, x).Some? {
      UpdatedFrames(s.frames, x, v, y);
      UpdatedFrames(s.frames, x, v, x);
    } else {
      PutOnTop(s.frames, x, v, y);
      PutOnTop(s.frames, x, v, x);
      if x in s.globals { assert Get(s.frames, y) == Get(SetVar(s, x, v).frames, y); }
    }
  }

  lemma {:induction false} UpdatedFrames(frames: seq<Frame>, x: Name, v: Val, y: Name)
    requires Get(frames, x).Some?
    ensures Get(Update(frames, x, v), y) == if y == x then Some(v) else Get(frames, y)
    decreases |frames|
  {
    var n := |frames| - 1;
    var r := Update(frames, x, v);
    if x in frames[n] {
      assert r[..n] == frames[..n];
    } else {
      UpdatedFrames(frames[..n], x, v, y);
      assert r[..n] == Update(frames[..n], x, v) && r[n] == frames[n];
    }
  }

  lemma PutOnTop(frames: seq<Frame>, x: Name, v: Val, y: Name)
    requires frames != []
    ensures var n := |frames| - 1; Get(frames[n := frames[n][x := v]], y) == if y == x then Some(v) else Get(frames, y)
  {
    var n := |frames| - 1;
    assert frames[n := frames[n][x := v]][..n] == frames[..n];
  }

  /** A declaration hides the name of an outer frame until its own frame goes. */
  lemma DeclaredVariable(s: State, x: Name, v: Val, y: Name)
    requires Sane(s)
    ensures GetVar(Insert(Push(s), x, v), y) == if y == x then Some(v) else GetVar(s, y)
    ensures Pop(Insert(Push(s), x, v)) == s
  {
    var u := Push(s);
    assert u.frames[..|s.frames|] == s.frames && u.moved[..|s.moved|] == s.moved;
    PutOnTop(u.frames, x, v, y);
    assert Get(u.frames, y) == Get(s.frames, y);
    assert Insert(u, x, v).frames[..|s.frames|] == s.frames;
  }

  lemma PushPop(s: State, x: Name)
    requires Sane(s)
    ensures Sane(Push(s)) && Pop(Push(s)) == s && GetVar(Push(s), x) == GetVar(s, x)
  {
    assert Push(s).frames[..|s.frames|] == s.frames && Push(s).moved[..|s.moved|] == s.moved;
  }

  /** A result's value, however many results are around it. */
  function Bare(v: Val): Val { if v.Res? then Bare(v.inner) else v }

  /** Everything can be copied but instances. */
  lemma {:induction false} CopyableBare(v: Val)
    ensures Copyable(v) <==> !Bare(v).Obj?
  {
    if v.Res? { CopyableBare(v.inner); }
  }

  /** Declaring, assigning or returning the value of a variable marks the variable as moved. */
  lemma MovedExactly(p: Program, x: Name, y: Name, v: Val, s: State, fuel: nat)
    requires Sane(s) && GetVar(s, y) == Some(v) && fuel >= 2
    ensures var n := |s.moved| - 1;
      var moved := if Bare(v).Obj? then s.moved[n := s.moved[n] + {y}] else s.moved;
      && (var r := Exec(p, Decl(x, Var(y)), s, fuel); r.Done? && r.s.moved == moved)
      && (var r := Exec(p, Assign(x, Var(y)), s, fuel); r.Done? && r.s.moved == moved)
      && (var r := Exec(p, Return(Some(Var(y))), s, fuel); r.Done? && r.s.moved == moved)
  {
    CopyableBare(v);
    assert EvalExpr(p, Var(y), s, fuel - 1) == Done(Value(v), s);
    var t := MarkMoved(s, Var(y), v);
    assert ExecDecl(p, x, Var(y), s, fuel) == Done(None, Insert(t, x, v));
    assert ExecAssign(p, x, Var(y), s, fuel) == Done(None, SetVar(t, x, v));
    assert ExecReturn(p, Some(Var(y)), s, fuel) == Done(Some(v), t);
  }

  // ----- conditions and loops -----

  /** What a condition takes for false. */
  predicate Falsy(v: Val) { v == Num(0) || v == Bool(false) || v == Nothing }

  /** The chosen branch of a conditional expression has its value. */
  lemma CondChooses(p: Program, v: Val, a: Expr, b: Expr, s: State, fuel: nat)
    requires Sane(s) && fuel >= 1
    ensures EvalExpr(p, Cond(Lit(v), a, Some(b)), s, fuel + 1) == EvalExpr(p, if Falsy(v) then b else a, s, fuel)
    ensures EvalExpr(p, Cond(Lit(v), a, None), s, fuel + 1) == if Falsy(v) then Done(Value(Nothing), s) else EvalExpr(p, a, s, fuel)
  {
    assert EvalExpr(p, Lit(v), s, fuel) == Done(Value(v), s);
    assert EvalCond(p, Lit(v), a, Some(b), s, fuel + 1) == EvalExpr(p, if Falsy(v) then b else a, s, fuel);
  }

  /** A missing `else` is an empty one. */
  lemma MissingElse(p: Program, c: Expr, body: seq<Stmt>, s: State, fuel: nat)
    requires Sane(s) && fuel >= 2
    ensures Exec(p, If(c, body, NoElse), s, fuel) == Exec(p, If(c, body, Else([])), s, fuel)
  {
    match EvalExpr(p, c, s, fuel - 1)
    case Done(Value(v), t) =>
      if !Truthy(v) {
        EmptyScope(p, t, fuel - 1);
        assert ExecIf(p, c, body, NoElse, s, fuel) == Done(None, t);
        assert ExecIf(p, c, body, Else([]), s, fuel) == Scope(p, [], [], [], t, fuel - 1);
      } else {
        assert ExecIf(p, c, body, NoElse, s, fuel) == Scope(p, [], [], body, t, fuel - 1);
        assert ExecIf(p, c, body, Else([]), s, fuel) == Scope(p, [], [], body, t, fuel - 1);
      }
    case _ =>
  }

  lemma EmptyScope(p: Program, s: State, fuel: nat)
    requires Sane(s)
    ensures Scope(p, [], [], [], s, fuel) == Done(None, s)
  {
    PushPop(s, "");
    assert InsertAll(Push(s), [], [], 0) == Push(s);
    assert ExecBody(p, [], Push(s), fuel) == Done(None, Push(s));
  }

  /** `loop` is `while true`. */
  lemma {:induction false} LoopIsWhile(p: Program, body: seq<Stmt>, s: State, fuel: nat)
    requires Sane(s) && fuel > 0
    ensures ExecLoop(p, body, s, fuel) == ExecWhile(p, Lit(Bool(true)), body, s, fuel)
    decreases fuel
  {
    var c := Lit(Bool(true));
    if fuel == 1 {
      if body == [] { EmptyScope(p, s, 0); }
      assert EvalExpr(p, c, s, 0) == Stuck;
      assert body != [] ==> Scope(p, [], [], body, s, 0) == Stuck;
    } else {
      assert EvalExpr(p, c, s, fuel - 1) == Done(Value(Bool(true)), s);
      var r := Scope(p, [], [], body, s, fuel - 1);
      if r.Done? && r.value == None { LoopIsWhile(p, body, r.s, fuel - 1); }
    }
  }

  // ----- returns -----

  /** Nothing runs behind a return. */
  lemma ReturnEnds(p: Program, v: Val, rest: seq<Stmt>, s: State, fuel: nat)
    requires Sane(s) && fuel >= 2
    ensures ExecBody(p, [Return(Some(Lit(v)))] + rest, s, fuel) == Done(Some(v), s)
    ensures ExecBody(p, [Return(None)] + rest, s, fuel) == Done(Some(Nothing), s)
  {
    assert EvalExpr(p, Lit(v), s, fuel - 1) == Done(Value(v), s);
    assert MarkMoved(s, Lit(v), v) == s;
    assert ExecReturn(p, Some(Lit(v)), s, fuel) == Done(Some(v), s);
    assert Exec(p, Return(Some(Lit(v))), s, fuel) == Done(Some(v), s);
    assert Exec(p, Return(None), s, fuel) == Done(Some(Nothing), s);
  }

  lemma ScopeReturns(p: Program, v: Val, rest: seq<Stmt>, s: State, fuel: nat)
    requires Sane(s) && fuel >= 2
    ensures Scope(p, [], [], [Return(Some(Lit(v)))] + rest, s, fuel) == Done(Some(v), s)
  {
    PushPop(s, "");
    ReturnEnds(p, v, rest, Push(s), fuel);
    assert InsertAll(Push(s), [], [], 0) == Push(s);
  }

  /** A return inside a branch ends the whole statement with its value. */
  lemma ReturnFromBranch(p: Program, v: Val, rest: seq<Stmt>, s: State, fuel: nat)
    requires Sane(s) && fuel >= 3
    ensures var body := [Return(Some(Lit(v)))] + rest;
      && Exec(p, If(Lit(Bool(true)), body, NoElse), s, fuel) == Done(Some(v), s)
      && Exec(p, If(Lit(Bool(false)), [], Else(body)), s, fuel) == Done(Some(v), s)
  {
    var body := [Return(Some(Lit(v)))] + rest;
    ScopeReturns(p, v, rest, s, fuel - 1);
    assert EvalExpr(p, Lit(Bool(true)), s, fuel - 1) == Done(Value(Bool(true)), s);
    assert EvalExpr(p, Lit(Bool(false)), s, fuel - 1) == Done(Value(Bool(false)), s);
    assert ExecIf(p, Lit(Bool(true)), body, NoElse, s, fuel) == Done(Some(v), s);
    assert ExecIf(p, Lit(Bool(false)), [], Else(body), s, fuel) == Done(Some(v), s);
  }

  /** So does one inside a loop. */
  lemma ReturnFromLoop(p: Program, v: Val, rest: seq<Stmt>, s: State, fuel: nat)
    requires Sane(s) && fuel >= 3
    ensures var body := [Return(Some(Lit(v)))] + rest;
      && Exec(p, While(Lit(Bool(true)), body), s, fuel) == Done(Some(v), s)
      && Exec(p, Loop(body), s, fuel) == Done(Some(v), s)
  {
    var body := [Return(Some(Lit(v)))] + rest;
    ScopeReturns(p, v, rest, s, fuel - 1);
    assert EvalExpr(p, Lit(Bool(true)), s, fuel - 1) == Done(Value(Bool(true)), s);
    assert ExecWhile(p, Lit(Bool(true)), body, s, fuel) == Done(Some(v), s);
    assert ExecLoop(p, body, s, fuel) == Done(Some(v), s);
  }

  /** A counted loop that returns its variable returns 0, if it goes round at all. */
  lemma ForReturnsFirst(p: Program, x: Name, n: int, s: State, fuel: nat)
    requires Sane(s) && fuel >= 5
    ensures Exec(p, For(x, Lit(Num(n)), [Return(Some(Var(x)))]), s, fuel) == Done(if n > 0 then Some(Num(0)) else None, s)
  {
    var body := [Return(Some(Var(x)))];
    assert EvalExpr(p, Lit(Num(n)), s, fuel - 1) == Done(Value(Num(n)), s);
    if n > 0 {
      assert LastAt([x], 0, x);
      ReturnsVariable(p, [x], [Num(0)], x, Num(0), s, fuel - 2);
      assert Rounds(p, x, 0, n, body, s, fuel - 1) == Done(Some(Num(0)), s);
    } else {
      assert Rounds(p, x, 0, n, body, s, fuel - 1) == Done(None, s);
    }
    assert ExecFor(p, x, Lit(Num(n)), body, s, fuel) == Rounds(p, x, 0, n, body, s, fuel - 1);
  }

  // ----- calls -----

  /** The last place of a name. */
  predicate LastAt(xs: seq<Name>, i: nat, x: Name) { i < |xs| && xs[i] == x && forall j :: i < j < |xs| ==> xs[j] != x }

  function ValueAt(vs: seq<Val>, i: nat): Val { if i < |vs| then vs[i] else Nothing }

  /** What a name is bound to: the value at its place, or nothing when there are too few. */
  ghost predicate BoundTo(xs: seq<Name>, vs: seq<Val>, x: Name, v: Val) { exists i :: LastAt(xs, i, x) && v == ValueAt(vs, i) }

  lemma {:induction false} InsertedAll(s: State, xs: seq<Name>, vs: seq<Val>, k: nat)
    requires Sane(s) && k <= |xs|
    ensures var t := InsertAll(s, xs, vs, k);
      && t.moved == s.moved && t.globals == s.globals && t.left == s.left
      && |t.frames| == |s.frames| && t.frames[..|s.frames| - 1] == s.frames[..|s.frames| - 1]
    decreases |xs| - k
  {
    if k < |xs| {
      var u := Insert(s, xs[k], ValueAt(vs, k));
      InsertedAll(u, xs, vs, k + 1);
      assert u.frames[..|s.frames| - 1] == s.frames[..|s.frames| - 1];
    }
  }

  lemma {:induction false} OtherInserted(s: State, xs: seq<Name>, vs: seq<Val>, k: nat, x: Name)
    requires Sane(s) && k <= |xs| && forall j :: k <= j < |xs| ==> xs[j] != x
    ensures Get(InsertAll(s, xs, vs, k).frames, x) == Get(s.frames, x)
    decreases |xs| - k
  {
    if k < |xs| {
      PutOnTop(s.frames, xs[k], ValueAt(vs, k), x);
      OtherInserted(Insert(s, xs[k], ValueAt(vs, k)), xs, vs, k + 1, x);
    }
  }

  lemma {:induction false} InsertedAt(s: State, xs: seq<Name>, vs: seq<Val>, k: nat, i: nat, x: Name)
    requires Sane(s) && k <= i && LastAt(xs, i, x)
    ensures Get(InsertAll(s, xs, vs, k).frames, x) == Some(ValueAt(vs, i))
    decreases |xs| - k
  {
    var u := Insert(s, xs[k], ValueAt(vs, k));
    if k == i {
      PutOnTop(s.frames, xs[k], ValueAt(vs, k), x);
      OtherInserted(u, xs, vs, k + 1, x);
    } else {
      InsertedAt(u, xs, vs, k + 1, i, x);
    }
  }

  lemma BoundInside(s: State, xs: seq<Name>, vs: seq<Val>, x: Name, v: Val)
    requires Sane(s) && BoundTo(xs, vs, x, v)
    ensures var u := InsertAll(Push(s), xs, vs, 0);
      && Sane(u) && GetVar(u, x) == Some(v) && Pop(u) == s && |u.frames| == |s.frames| + 1
      && u.moved == Push(s).moved && u.left == s.left && u.globals == s.globals && u.frames[..|s.frames|] == s.frames
  {
    PushPop(s, x);
    var i :| LastAt(xs, i, x) && v == ValueAt(vs, i);
    InsertedAll(Push(s), xs, vs, 0);
    InsertedAt(Push(s), xs, vs, 0, i, x);
  }

  /** A body that returns a variable; its mark goes with the frame. */
  lemma ReturnsVariable(p: Program, xs: seq<Name>, vs: seq<Val>, x: Name, v: Val, s: State, fuel: nat)
    requires Sane(s) && fuel >= 2 && BoundTo(xs, vs, x, v)
    ensures Scope(p, xs, vs, [Return(Some(Var(x)))], s, fuel) == Done(Some(v), s)
  {
    BoundInside(s, xs, vs, x, v);
    var t := VariableReturned(p, x, v, s, InsertAll(Push(s), xs, vs, 0), fuel);
  }

  predicate Literals(args: seq<Expr>, vs: seq<Val>) { |args| == |vs| && forall i :: 0 <= i < |vs| ==> args[i] == Lit(vs[i]) }

  lemma {:induction false} LiteralArgs(p: Program, args: seq<Expr>, vs: seq<Val>, s: State, fuel: nat)
    requires Sane(s) && fuel >= 1 && Literals(args, vs)
    ensures EvalArgs(p, args, s, fuel) == Done(vs, s)
    decreases |args|
  {
    if args != [] {
      assert EvalExpr(p, args[0], s, fuel) == Done(Value(vs[0]), s);
      LiteralArgs(p, args[1..], vs[1..], s, fuel);
      assert [vs[0]] + vs[1..] == vs;
    }
  }

  /** A function that returns a parameter returns the argument at its place; a missing argument is
      nothing, and the caller's variables stay as they are. */
  lemma CallBinds(p: Program, f: Name, args: seq<Expr>, vs: seq<Val>, x: Name, v: Val, s: State, fuel: nat)
    requires Sane(s) && fuel >= 3 && Literals(args, vs) && f in p.functions
    requires p.functions[f].body == [Return(Some(Var(x)))] && BoundTo(p.functions[f].params, vs, x, v)
    ensures EvalExpr(p, Call(f, args), s, fuel) == Done(Value(v), s)
  {
    LiteralArgs(p, args, vs, s, fuel - 1);
    ReturnsVariable(p, p.functions[f].params, vs, x, v, s, fuel - 1);
    assert EvalCall(p, f, args, s, fuel) == Done(Value(v), s);
    assert EvalExpr(p, Call(f, args), s, fuel) == EvalOpening(p, Call(f, args), s, fuel);
  }

  /** Arguments are evaluated from the left: the later ones see what the earlier ones stored. */
  lemma ArgumentsInOrder(p: Program, x: Name, v: Val, s: State, fuel: nat)
    requires Sane(s) && fuel >= 2
    ensures EvalArgs(p, [Store(x, Lit(v)), Var(x)], s, fuel) == Done([v, v], SetVar(s, x, v))
  {
    var args, t := [Store(x, Lit(v)), Var(x)], SetVar(s, x, v);
    SetVarLeads(s, x, v);
    AssignedVariable(s, x, v, x);
    assert EvalExpr(p, Lit(v), s, fuel - 1) == Done(Value(v), s);
    assert EvalExpr(p, args[0], s, fuel) == Done(Value(v), t);
    assert args[1..] == [Var(x)] && args[1..][1..] == [];
    assert EvalExpr(p, Var(x), t, fuel) == Done(Value(v), t);
    assert EvalArgs(p, args[1..][1..], t, fuel) == Done([], t);
    assert [v] + [] == [v];
    assert EvalArgs(p, args[1..], t, fuel) == Done([v], t);
    assert [v] + [v] == [v, v];
  }

  /** Of two operands the right one comes first. */
  lemma RightOperandFirst(p: Program, x: Name, a: int, s: State, fuel: nat)
    requires Sane(s) && fuel >= 3
    ensures EvalExpr(p, Binary(Add, Var(x), Store(x, Lit(Num(a)))), s, fuel) == Done(Value(Num(a + a)), SetVar(s, x, Num(a)))
  {
    var t := SetVar(s, x, Num(a));
    SetVarLeads(s, x, Num(a));
    AssignedVariable(s, x, Num(a), x);
    assert EvalExpr(p, Lit(Num(a)), s, fuel - 2) == Done(Value(Num(a)), s);
    assert EvalExpr(p, Store(x, Lit(Num(a))), s, fuel - 1) == Done(Value(Num(a)), t);
    assert EvalExpr(p, Var(x), t, fuel - 1) == Done(Value(Num(a)), t);
    assert EvalBinary(p, Add, Var(x), Store(x, Lit(Num(a))), s, fuel) == Done(Value(Num(a + a)), t);
  }

  // ----- results -----

  /** The question mark undoes a success and returns a failure from the function. */
  lemma TryUnwraps(p: Program, ok: bool, e: Expr, v: Val, s: State, t: State, fuel: nat)
    requires Sane(s) && Sane(t) && EvalExpr(p, e, s, fuel) == Done(Value(v), t)
    ensures EvalExpr(p, Try(Make(ok, e)), s, fuel + 2) == Done(if ok then Value(v) else Returns(Res(false, v)), t)
  {
    Makes(p, ok, e, v, s, t, fuel);
    assert EvalTry(p, Make(ok, e), s, fuel + 2) == Done(if ok then Value(v) else Returns(Res(false, v)), t);
  }

  lemma Makes(p: Program, ok: bool, e: Expr, v: Val, s: State, t: State, fuel: nat)
    requires Sane(s) && Sane(t) && EvalExpr(p, e, s, fuel) == Done(Value(v), t)
    ensures EvalExpr(p, Make(ok, e), s, fuel + 1) == Done(Value(Res(ok, v)), t)
  {
    assert EvalMake(p, ok, e, s, fuel + 1) == Done(Value(Res(ok, v)), t);
  }

  predicate Failed(v: Val) { v.Res? && !v.ok }

  /** A handler sees the failed result that the body returned; any other returned value is returned
      from the function, and a body that returns nothing gives nothing. */
  lemma HandlerSees(p: Program, body: seq<Stmt>, x: Name, s: State, t: State, v: Option<Val>, fuel: nat)
    requires Sane(s) && Sane(t) && fuel >= 3 && Scope(p, [], [], body, s, fuel - 1) == Done(v, t)
    ensures EvalExpr(p, TryCatch(body, x, [Return(Some(Var(x)))]), s, fuel)
      == if v == None then Done(Value(Nothing), t) else if Failed(v.value) then Done(Value(v.value), t) else Done(Returns(v.value), t)
  {
    var handler := [Return(Some(Var(x)))];
    if v.Some? && Failed(v.value) {
      assert LastAt([x], 0, x);
      ReturnsVariable(p, [x], [v.value], x, v.value, t, fuel - 1);
    }
    assert EvalExpr(p, TryCatch(body, x, handler), s, fuel) == EvalTryCatch(p, body, x, handler, s, fuel);
  }

  /** A block has the value that its body returns. */
  lemma BlockReturns(p: Program, v: Val, rest: seq<Stmt>, s: State, fuel: nat)
    requires Sane(s) && fuel >= 3
    ensures EvalExpr(p, Block([Return(Some(Lit(v)))] + rest), s, fuel) == Done(Value(v), s)
    ensures EvalExpr(p, Block([]), s, fuel) == Done(Value(Nothing), s)
  {
    ScopeReturns(p, v, rest, s, fuel - 1);
    EmptyScope(p, s, fuel - 1);
    assert EvalBlock(p, [Return(Some(Lit(v)))] + rest, s, fuel) == Done(Value(v), s);
    assert EvalBlock(p, [], s, fuel) == Done(Value(Nothing), s);
    assert EvalExpr(p, Block([]), s, fuel) == EvalOpening(p, Block([]), s, fuel);
    assert EvalExpr(p, Block([Return(Some(Lit(v)))] + rest), s, fuel) == EvalOpening(p, Block([Return(Some(Lit(v)))] + rest), s, fuel);
  }

  // ----- match -----

  /** An arm that is passed over: its number is another one, or its guard is false. */
  predicate Skipped(arm: Arm, v: Val) {
    (arm.pattern.Is? && v != Num(arm.pattern.n)) || (!arm.pattern.Bind? && arm.guard == Some(Lit(Bool(false))))
  }

  predicate Taken(arm: Arm, v: Val) {
    (!arm.pattern.Is? || v == Num(arm.pattern.n)) && (arm.guard == None || (!arm.pattern.Bind? && arm.guard == Some(Lit(Bool(true)))))
  }

  lemma LiteralGuard(p: Program, pattern: Pattern, b: bool, v: Val, s: State, fuel: nat)
    requires Sane(s) && fuel >= 1 && !pattern.Bind?
    ensures Guard(p, pattern, Lit(Bool(b)), v, s, fuel) == Done(Value(Bool(b)), s)
  {
    PushPop(s, "");
    assert EvalExpr(p, Lit(Bool(b)), Push(s), fuel) == Done(Value(Bool(b)), Push(s));
  }

  lemma OneSkipped(p: Program, arms: seq<Arm>, v: Val, s: State, fuel: nat)
    requires Sane(s) && fuel >= 1 && arms != [] && Skipped(arms[0], v)
    ensures EvalArms(p, arms, v, s, fuel) == EvalArms(p, arms[1..], v, s, fuel)
  {
    if Matches(arms[0].pattern, v) { LiteralGuard(p, arms[0].pattern, false, v, s, fuel); }
  }

  lemma OneTaken(p: Program, arms: seq<Arm>, v: Val, s: State, fuel: nat)
    requires Sane(s) && fuel >= 1 && arms != [] && Taken(arms[0], v)
    ensures EvalArms(p, arms, v, s, fuel) == EvalArms(p, [Arm(arms[0].pattern, None, arms[0].body)], v, s, fuel)
  {
    var arm := Arm(arms[0].pattern, None, arms[0].body);
    SameBody(p, arm, arms[0], v, s, fuel);
    if arms[0].guard.Some? { LiteralGuard(p, arms[0].pattern, true, v, s, fuel); }
    assert EvalArms(p, [arm], v, s, fuel) == ArmBody(p, arm, v, s, fuel);
  }

  lemma SameBody(p: Program, a: Arm, b: Arm, v: Val, s: State, fuel: nat)
    requires Sane(s) && a.pattern == b.pattern && a.body == b.body
    ensures ArmBody(p, a, v, s, fuel) == ArmBody(p, b, v, s, fuel)
  {}

  lemma {:induction false} ArmsFrom(p: Program, arms: seq<Arm>, k: nat, v: Val, s: State, fuel: nat)
    requires Sane(s) && fuel >= 1 && k <= |arms| && forall j :: 0 <= j < k ==> Skipped(arms[j], v)
    ensures EvalArms(p, arms, v, s, fuel) == EvalArms(p, arms[k..], v, s, fuel)
    decreases k
  {
    if k == 0 {
      assert arms[0..] == arms;
    } else {
      OneSkipped(p, arms, v, s, fuel);
      ArmsFrom(p, arms[1..], k - 1, v, s, fuel);
      assert arms[1..][k - 1..] == arms[k..];
    }
  }

  /** The arm with the least index that is not passed over decides; without one the match is an error. */
  lemma LeastArm(p: Program, arms: seq<Arm>, k: nat, v: Val, s: State, fuel: nat)
    requires Sane(s) && fuel >= 2 && k <= |arms| && (forall j :: 0 <= j < k ==> Skipped(arms[j], v)) && (k < |arms| ==> Taken(arms[k], v))
    ensures EvalExpr(p, Match(Lit(v), arms), s, fuel)
      == if k == |arms| then Fail(s, 0) else EvalArms(p, [Arm(arms[k].pattern, None, arms[k].body)], v, s, fuel - 1)
  {
    ArmsFrom(p, arms, k, v, s, fuel - 1);
    if k < |arms| { OneTaken(p, arms[k..], v, s, fuel - 1); }
    MatchesLiteral(p, arms, v, s, fuel);
  }

  lemma MatchesLiteral(p: Program, arms: seq<Arm>, v: Val, s: State, fuel: nat)
    requires Sane(s) && fuel >= 2
    ensures EvalExpr(p, Match(Lit(v), arms), s, fuel) == EvalArms(p, arms, v, s, fuel - 1)
  {
    assert EvalExpr(p, Lit(v), s, fuel - 1) == Done(Value(v), s);
    assert EvalMatch(p, Lit(v), arms, s, fuel) == EvalArms(p, arms, v, s, fuel - 1);
    assert EvalExpr(p, Match(Lit(v), arms), s, fuel) == EvalOpening(p, Match(Lit(v), arms), s, fuel);
  }

  /** The arm's body sees the value under its name, and its frame goes away; an error in it as well. */
  lemma ArmBinds(p: Program, x: Name, v: Val, y: Name, s: State, fuel: nat)
    requires Sane(s) && fuel >= 2 && GetVar(s, x) == None
    ensures EvalExpr(p, Match(Lit(v), [Arm(Bind(x), None, Var(y))]), s, fuel)
      == if y == x then Done(Value(v), s) else if GetVar(s, y).Some? then Done(Value(GetVar(s, y).value), s) else Fail(s, 0)
  {
    var arm := Arm(Bind(x), None, Var(y));
    PushPop(s, x);
    DeclaredVariable(s, x, v, y);
    var u := BindArm(Push(s), Bind(x), v);
    assert u == Insert(Push(s), x, v) && Pop(u) == s;
    assert EvalExpr(p, Var(y), u, fuel - 1) == if GetVar(u, y).Some? then Done(Value(GetVar(u, y).value), u) else Fail(u, 0);
    assert EvalArms(p, [arm], v, s, fuel - 1) == ArmBody(p, arm, v, s, fuel - 1);
    MatchesLiteral(p, [arm], v, s, fuel);
  }

  /** A name in a pattern overwrites a variable of that name around the match, if there is one. */
  lemma ArmOverwrites(p: Program, x: Name, v: Val, w: Val, s: State, fuel: nat)
    requires Sane(s) && fuel >= 2
    ensures EvalExpr(p, Match(Lit(v), [Arm(Bind(x), None, Lit(w))]), s, fuel)
      == Done(Value(w), if GetVar(s, x).Some? then SetVar(s, x, v) else s)
  {
    var arm := Arm(Bind(x), None, Lit(w));
    var u := BindArm(Push(s), Bind(x), v);
    SetBelow(s, x, v);
    assert EvalExpr(p, Lit(w), u, fuel - 1) == Done(Value(w), u);
    assert EvalArms(p, [arm], v, s, fuel - 1) == ArmBody(p, arm, v, s, fuel - 1);
    MatchesLiteral(p, [arm], v, s, fuel);
  }

  lemma SetBelow(s: State, x: Name, v: Val)
    requires Sane(s)
    ensures var u := SetVar(Push(s), x, v); Sane(u) && Pop(u) == if GetVar(s, x).Some? then SetVar(s, x, v) else s
  {
    PushPop(s, x);
    DeclaredVariable(s, x, v, x);
    assert Push(s).frames[..|s.frames|] == s.frames;
    if Get(s.frames, x).Some? {
      assert Update(Push(s).frames, x, v) == Update(s.frames, x, v) + [map[]];
      assert Pop(SetVar(Push(s), x, v)).frames == SetVar(s, x, v).frames;
    }
  }

  /** A guard sees the name that its pattern binds. */
  lemma GuardSees(p: Program, x: Name, m: int, n: int, a: Val, b: Val, s: State, fuel: nat)
    requires Sane(s) && fuel >= 4 && GetVar(s, x) == None
    ensures EvalExpr(p, Match(Lit(Num(m)), [Arm(Bind(x), Some(Binary(Less, Var(x), Lit(Num(n)))), Lit(a)), Arm(Ignore, None, Lit(b))]), s, fuel)
      == Done(Value(if m < n then a else b), s)
  {
    var arms := [Arm(Bind(x), Some(Binary(Less, Var(x), Lit(Num(n)))), Lit(a)), Arm(Ignore, None, Lit(b))];
    LessGuard(p, x, m, n, s, fuel - 1);
    GuardDecides(p, arms, m < n, a, b, Num(m), s, fuel - 1);
    MatchesLiteral(p, arms, Num(m), s, fuel);
  }

  /** A guard decides between its arm and the next one. */
  lemma GuardDecides(p: Program, arms: seq<Arm>, yes: bool, a: Val, b: Val, v: Val, s: State, fuel: nat)
    requires Sane(s) && fuel >= 1 && |arms| == 2 && arms[0].pattern.Bind? && arms[0].guard.Some? && GetVar(s, arms[0].pattern.x) == None
    requires arms[0].body == Lit(a) && arms[1] == Arm(Ignore, None, Lit(b))
    requires Guard(p, arms[0].pattern, arms[0].guard.value, v, s, fuel) == Done(Value(Bool(yes)), s)
    ensures EvalArms(p, arms, v, s, fuel) == Done(Value(if yes then a else b), s)
  {
    if yes {
      LiteralBody(p, arms[0], a, v, s, fuel);
    } else {
      LiteralBody(p, arms[1], b, v, s, fuel);
      assert arms[1..] == [arms[1]] && EvalArms(p, arms[1..], v, s, fuel) == Done(Value(b), s);
    }
  }

  lemma LessGuard(p: Program, x: Name, m: int, n: int, s: State, fuel: nat)
    requires Sane(s) && fuel >= 2 && GetVar(s, x) == None
    ensures Guard(p, Bind(x), Binary(Less, Var(x), Lit(Num(n))), Num(m), s, fuel) == Done(Value(Bool(m < n)), s)
  {
    PushPop(s, x);
    DeclaredVariable(s, x, Num(m), x);
    var u := BindArm(Push(s), Bind(x), Num(m));
    assert u == Insert(Push(s), x, Num(m)) && Pop(u) == s;
    assert EvalExpr(p, Var(x), u, fuel - 1) == Done(Value(Num(m)), u);
    assert EvalExpr(p, Lit(Num(n)), u, fuel - 1) == Done(Value(Num(n)), u);
    assert EvalBinary(p, Less, Var(x), Lit(Num(n)), u, fuel) == Done(Value(Bool(m < n)), u);
  }

  lemma LiteralBody(p: Program, arm: Arm, a: Val, v: Val, s: State, fuel: nat)
    requires Sane(s) && fuel >= 1 && arm.body == Lit(a) && (arm.pattern.Bind? ==> GetVar(s, arm.pattern.x) == None)
    ensures ArmBody(p, arm, v, s, fuel) == Done(Value(a), s)
  {
    PushPop(s, "");
    if arm.pattern.Bind? { SetBelow(s, arm.pattern.x, v); }
    var u := BindArm(Push(s), arm.pattern, v);
    assert EvalExpr(p, Lit(a), u, fuel) == Done(Value(a), u);
  }

  // ----- instances -----

  lemma {:induction false} PlaceIsFirst(fields: seq<Name>, x: Name)
    ensures match Place(fields, x)
      case None => x !in fields
      case Some(k) => fields[k] == x && forall j :: 0 <= j < k ==> fields[j] != x
    decreases |fields|
  {
    if fields != [] && fields[0] != x {
      PlaceIsFirst(fields[1..], x);
      assert fields == [fields[0]] + fields[1..];
    }
  }

  lemma {:induction false} PlacedAt(fields: seq<Name>, params: seq<Name>, vs: seq<Val>, i: nat, done: seq<Val>, k: nat)
    requires i <= |params| && |done| == |fields| && k < |fields|
    ensures var r := Placed(fields, params, vs, i, done);
      && (forall n :: i <= n && LastAt(params, n, fields[k]) && Place(fields, fields[k]) == Some(k) ==> r[k] == ValueAt(vs, n))
      && ((Place(fields, fields[k]) != Some(k) || fields[k] !in params[i..]) ==> r[k] == done[k])
    decreases |params| - i
  {
    if i < |params| {
      var at := Place(fields, params[i]);
      PlaceIsFirst(fields, params[i]);
      assert params[i..] == [params[i]] + params[i + 1..];
      PlacedAt(fields, params, vs, i + 1, if at.Some? then done[at.value := ValueAt(vs, i)] else done, k);
    }
  }

  /** A new instance has in each field the argument of the parameter of that name, and nothing in a
      field without one. */
  lemma NewFields(p: Program, cls: Name, args: seq<Expr>, vs: seq<Val>, k: nat, s: State, fuel: nat)
    requires Sane(s) && fuel >= 3 && Literals(args, vs) && cls in p.classes && k < |p.classes[cls].fields|
    requires p.classes[cls].parent == None && p.classes[cls].init == []
    requires forall j :: 0 <= j < k ==> p.classes[cls].fields[j] != p.classes[cls].fields[k]
    ensures var r := EvalExpr(p, New(cls, args), s, fuel);
      && r.Done? && r.s == s && r.value.Value? && r.value.v.Obj? && r.value.v.cls == cls && |r.value.v.fields| == |p.classes[cls].fields|
      && var c := p.classes[cls];
      && (forall v :: BoundTo(c.params, vs, c.fields[k], v) ==> r.value.v.fields[k] == v)
      && (c.fields[k] !in c.params ==> r.value.v.fields[k] == Nothing)
  {
    var c := p.classes[cls];
    var self := Obj(cls, Placed(c.fields, c.params, vs, 0, Blank(|c.fields|)));
    LiteralArgs(p, args, vs, s, fuel - 1);
    EmptyInit(p, c, self, s, fuel - 1);
    PlaceIsFirst(c.fields, c.fields[k]);
    PlacedAt(c.fields, c.params, vs, 0, Blank(|c.fields|), k);
    assert c.params[0..] == c.params;
    assert EvalNew(p, cls, args, s, fuel) == Done(Value(self), s);
    assert EvalExpr(p, New(cls, args), s, fuel) == EvalOpening(p, New(cls, args), s, fuel);
  }

  lemma EmptyInit(p: Program, cls: Class, self: Val, s: State, fuel: nat)
    requires Sane(s) && fuel >= 1 && cls.parent == None && cls.init == []
    ensures RunInit(p, cls, self, s, fuel) == Done(self, s)
  {
    DeclaredVariable(s, "self", self, "self");
    var u := Insert(Push(s), "self", self);
    assert ExecBody(p, [], u, fuel - 1) == Done(None, u);
    assert InitBody(p, [], self, s, fuel - 1) == Done(Go(self), s);
  }

  /** An init body that wraps the instance. */
  function Wrapping(ok: bool): seq<Stmt> { [Eval(Store("self", Make(ok, Var("self"))))] }

  lemma WrapsOnce(p: Program, ok: bool, v: Val, s: State, fuel: nat)
    requires Sane(s) && fuel >= 4
    ensures InitBody(p, Wrapping(ok), v, s, fuel) == Done(Go(Res(ok, v)), s)
  {
    DeclaredVariable(s, "self", v, "self");
    var u := Insert(Push(s), "self", v);
    var w := Res(ok, v);
    assert EvalExpr(p, Var("self"), u, fuel - 3) == Done(Value(v), u);
    Makes(p, ok, Var("self"), v, u, u, fuel - 3);
    var t := Insert(Push(s), "self", w);
    StoresSelf(p, Make(ok, Var("self")), v, w, s, fuel - 1);
    assert Wrapping(ok)[1..] == [];
    assert ExecBody(p, Wrapping(ok)[1..], t, fuel) == Done(None, t);
    assert ExecBody(p, Wrapping(ok), u, fuel) == Done(None, t);
    DeclaredVariable(s, "self", w, "self");
  }

  lemma SelfReplaced(s: State, v: Val, w: Val)
    requires Sane(s)
    ensures SetVar(Insert(Push(s), "self", v), "self", w) == Insert(Push(s), "self", w)
  {
    var u, n := Insert(Push(s), "self", v), |s.frames|;
    var empty: Frame := map[];
    assert u.frames[n] == empty["self" := v] && u.frames[n]["self" := w] == empty["self" := w];
    assert Insert(Push(s), "self", w).frames == u.frames[n := empty["self" := w]];
  }

  lemma StoresSelf(p: Program, e: Expr, v: Val, w: Val, s: State, fuel: nat)
    requires Sane(s) && fuel >= 1 && EvalExpr(p, e, Insert(Push(s), "self", v), fuel - 1) == Done(Value(w), Insert(Push(s), "self", v))
    ensures Exec(p, Eval(Store("self", e)), Insert(Push(s), "self", v), fuel + 1) == Done(None, Insert(Push(s), "self", w))
  {
    var u := Insert(Push(s), "self", v);
    SelfReplaced(s, v, w);
    assert EvalStore(p, "self", e, u, fuel) == Done(Value(w), Insert(Push(s), "self", w));
    assert EvalExpr(p, Store("self", e), u, fuel) == Done(Value(w), Insert(Push(s), "self", w));
  }

  /** A line of classes, each the parent of the next, whose init bodies wrap. */
  ghost predicate Line(p: Program, names: seq<Name>, oks: seq<bool>) {
    |names| == |oks| && forall i :: 0 <= i < |names| ==> InLine(p, names, oks, i)
  }

  predicate InLine(p: Program, names: seq<Name>, oks: seq<bool>, i: nat)
    requires i < |names| == |oks|
  {
    && names[i] in p.classes && p.classes[names[i]].init == Wrapping(oks[i])
    && p.classes[names[i]].parent == if i == 0 then None else Some(names[i - 1])
  }

  /** What they make of an instance: each ancestor twice, the root first, and the class itself once. */
  function Wrapped(oks: seq<bool>, i: nat, self: Val): Val
    requires i < |oks|
  {
    if i == 0 then Res(oks[0], self) else Res(oks[i], Res(oks[i - 1], Wrapped(oks, i - 1, self)))
  }

  /** The init bodies of a line of classes run from the root on, those of ancestors twice. */
  lemma {:induction false} InitOrder(p: Program, names: seq<Name>, oks: seq<bool>, i: nat, self: Val, s: State, fuel: nat)
    requires Sane(s) && Line(p, names, oks) && i < |names| && fuel >= i + 5
    ensures names[i] in p.classes && RunInit(p, p.classes[names[i]], self, s, fuel) == Done(Wrapped(oks, i, self), s)
    decreases i
  {
    assert InLine(p, names, oks, i);
    var cls := p.classes[names[i]];
    if i == 0 {
      WrapsOwn(p, cls, oks[0], self, s, fuel);
    } else {
      assert InLine(p, names, oks, i - 1);
      InitOrder(p, names, oks, i - 1, self, s, fuel - 1);
      WrapsMore(p, cls, p.classes[names[i - 1]], oks[i - 1], oks[i], self, Wrapped(oks, i - 1, self), s, fuel);
    }
  }

  lemma WrapsOwn(p: Program, cls: Class, ok: bool, self: Val, s: State, fuel: nat)
    requires Sane(s) && fuel >= 5 && cls.init == Wrapping(ok)
    ensures OwnInit(p, cls, self, s, fuel) == Done(Res(ok, self), s)
  {
    WrapsOnce(p, ok, self, s, fuel - 1);
  }

  /** Behind the parent's run come the parent's body and the own one. */
  lemma WrapsMore(p: Program, cls: Class, parent: Class, above: bool, ok: bool, self: Val, v: Val, s: State, fuel: nat)
    requires Sane(s) && fuel >= 5 && cls.init == Wrapping(ok) && parent.init == Wrapping(above)
    requires cls.parent.Some? && cls.parent.value in p.classes && p.classes[cls.parent.value] == parent
    requires RunInit(p, parent, self, s, fuel - 1) == Done(v, s)
    ensures RunInit(p, cls, self, s, fuel) == Done(Res(ok, Res(above, v)), s)
  {
    WrapsOnce(p, above, v, s, fuel - 1);
    WrapsOwn(p, cls, ok, Res(above, v), s, fuel);
  }

  /** An init body that returns a failure replaces the instance by it; any other return is an error. */
  lemma InitReturns(p: Program, cls: Class, v: Val, self: Val, s: State, fuel: nat)
    requires Sane(s) && fuel >= 3 && cls.parent == None && cls.init == [Return(Some(Lit(v)))]
    ensures RunInit(p, cls, self, s, fuel) == if Failed(v) then Done(v, s) else Fail(s, 0)
  {
    DeclaredVariable(s, "self", self, "self");
    var u := Insert(Push(s), "self", self);
    ReturnEnds(p, v, [], u, fuel - 1);
    assert [Return(Some(Lit(v)))] + [] == cls.init;
    assert ExecBody(p, cls.init, u, fuel - 1) == Done(Some(v), u);
    assert InitBody(p, cls.init, self, s, fuel - 1) == if Failed(v) then Done(Halt(v), s) else Fail(s, 0);
    assert OwnInit(p, cls, self, s, fuel) == if Failed(v) then Done(v, s) else Fail(s, 0);
  }

  // ----- methods -----

  predicate Has(p: Program, c: Name, m: Name) { c in p.classes && m in p.classes[c].methods }

  /** A method is looked for in the class and then in its direct parent, no further. */
  lemma MethodFound(p: Program, c: Name, m: Name)
    requires c in p.classes
    ensures Has(p, c, m) ==> FindMethod(p, c, m) == Some(p.classes[c].methods[m])
    ensures var d := p.classes[c].parent;
      !Has(p, c, m) ==> FindMethod(p, c, m) == if d.Some? && Has(p, d.value, m) then Some(p.classes[d.value].methods[m]) else None
  {}

  /** Parameters of a method, `self` in front or not. */
  function Receiving(params: seq<Name>): seq<Name> {
    ["self", "super"] + if params != [] && params[0] == "self" then params[1..] else params
  }

  lemma {:induction false} UpdateSame(frames: seq<Frame>, x: Name)
    requires Get(frames, x).Some?
    ensures Update(frames, x, Get(frames, x).value) == frames
    decreases |frames|
  {
    var n := |frames| - 1;
    if x in frames[n] {
      assert frames[n][x := frames[n][x]] == frames[n];
    } else {
      UpdateSame(frames[..n], x);
      assert frames[..n] + [frames[n]] == frames;
    }
  }

  lemma SetSame(s: State, x: Name)
    requires Sane(s) && GetVar(s, x).Some?
    ensures SetVar(s, x, GetVar(s, x).value) == s
  {
    if Get(s.frames, x).Some? { UpdateSame(s.frames, x); } else { assert s.globals[x := s.globals[x]] == s.globals; }
  }

  /** When the body of a method has run, its frame goes and its `self` to the variable. */
  lemma MethodEnds(p: Program, fn: Fn, y: Name, self: Val, vs: seq<Val>, t: State, v: Option<Val>, w: Val, s: State, fuel: nat)
    requires Sane(s) && Sane(t) && ExecBody(p, fn.body, InsertAll(Push(s), Receiving(fn.params), [self, self] + vs, 0), fuel) == Done(v, t)
    requires Sane(Pop(t)) && var top := t.frames[|t.frames| - 1]; "self" in top && top["self"] == w
    ensures RunMethod(p, fn, Var(y), self, vs, s, fuel) == Done(Value(if v.Some? then v.value else Nothing), SetVar(Pop(t), y, w))
  {}

  /** A method that returns one of its names returns the receiver, or the argument at its place; the
      receiver is written back as it was. */
  lemma MethodReturns(p: Program, fn: Fn, y: Name, self: Val, vs: seq<Val>, x: Name, v: Val, s: State, fuel: nat)
    requires Sane(s) && fuel >= 2 && GetVar(s, y) == Some(self) && fn.body == [Return(Some(Var(x)))]
    requires BoundTo(Receiving(fn.params), [self, self] + vs, x, v) && BoundTo(Receiving(fn.params), [self, self] + vs, "self", self)
    ensures RunMethod(p, fn, Var(y), self, vs, s, fuel) == Done(Value(v), s)
  {
    var xs, ws := Receiving(fn.params), [self, self] + vs;
    BoundInside(s, xs, ws, x, v);
    SelfOnTop(s, xs, ws, self);
    SetSame(s, y);
    var t := VariableReturned(p, x, v, s, InsertAll(Push(s), xs, ws, 0), fuel);
    MethodEnds(p, fn, y, self, vs, t, Some(v), self, s, fuel);
  }

  lemma VariableReturned(p: Program, x: Name, v: Val, s: State, u: State, fuel: nat) returns (t: State)
    requires Sane(s) && Sane(u) && fuel >= 2 && GetVar(u, x) == Some(v) && Pop(u) == s && |u.frames| == |s.frames| + 1
    ensures ExecBody(p, [Return(Some(Var(x)))], u, fuel) == Done(Some(v), t)
    ensures Sane(t) && Pop(t) == s && t.frames == u.frames
  {
    t := MarkMoved(u, Var(x), v);
    assert EvalExpr(p, Var(x), u, fuel - 1) == Done(Value(v), u);
    assert ExecReturn(p, Some(Var(x)), u, fuel) == Done(Some(v), t);
    assert Exec(p, Return(Some(Var(x))), u, fuel) == Done(Some(v), t);
    assert t.moved[..|s.moved|] == s.moved;
  }

  lemma {:induction false} KeysInserted(s: State, xs: seq<Name>, vs: seq<Val>, k: nat, x: Name)
    requires Sane(s) && k <= |xs| && (x in xs[k..] || x in s.frames[|s.frames| - 1])
    ensures var t := InsertAll(s, xs, vs, k); x in t.frames[|t.frames| - 1]
    decreases |xs| - k
  {
    if k < |xs| {
      assert xs[k..] == [xs[k]] + xs[k + 1..];
      KeysInserted(Insert(s, xs[k], ValueAt(vs, k)), xs, vs, k + 1, x);
    }
  }

  lemma SelfOnTop(s: State, xs: seq<Name>, vs: seq<Val>, self: Val)
    requires Sane(s) && BoundTo(xs, vs, "self", self)
    ensures var u := InsertAll(Push(s), xs, vs, 0); var top := u.frames[|u.frames| - 1]; "self" in top && top["self"] == self
  {
    BoundInside(s, xs, vs, "self", self);
    KeysInserted(Push(s), xs, vs, 0, "self");
  }

  /** What a method makes of `self` is written back to the variable that it was called on. */
  lemma MethodWritesBack(p: Program, fn: Fn, y: Name, self: Val, w: Val, s: State, fuel: nat)
    requires Sane(s) && fuel >= 3 && fn == Fn([], [Eval(Store("self", Lit(w)))])
    ensures RunMethod(p, fn, Var(y), self, [], s, fuel) == Done(Value(Nothing), SetVar(s, y, w))
  {
    var xs, vs := Receiving(fn.params), [self, self] + [];
    assert xs == ["self", "super"] && LastAt(xs, 0, "self");
    var u := SelfInside(s, xs, vs, self);
    StoredOnTop(u, w);
    StoreRuns(p, "self", w, u, fuel);
    MethodEnds(p, fn, y, self, [], SetVar(u, "self", w), None, w, s, fuel);
  }

  lemma SelfInside(s: State, xs: seq<Name>, vs: seq<Val>, self: Val) returns (u: State)
    requires Sane(s) && BoundTo(xs, vs, "self", self)
    ensures u == InsertAll(Push(s), xs, vs, 0) && Sane(u) && Pop(u) == s && |u.frames| == |s.frames| + 1
    ensures "self" in u.frames[|u.frames| - 1]
  {
    u := InsertAll(Push(s), xs, vs, 0);
    BoundInside(s, xs, vs, "self", self);
    SelfOnTop(s, xs, vs, self);
  }

  lemma StoreRuns(p: Program, x: Name, w: Val, u: State, fuel: nat)
    requires Sane(u) && fuel >= 3
    ensures Sane(SetVar(u, x, w)) && ExecBody(p, [Eval(Store(x, Lit(w)))], u, fuel) == Done(None, SetVar(u, x, w))
  {
    var body, t := [Eval(Store(x, Lit(w)))], SetVar(u, x, w);
    SetVarLeads(u, x, w);
    assert EvalExpr(p, Lit(w), u, fuel - 2) == Done(Value(w), u);
    assert EvalExpr(p, Store(x, Lit(w)), u, fuel - 1) == Done(Value(w), t);
    assert Exec(p, body[0], u, fuel) == Done(None, t);
    assert body[1..] == [] && ExecBody(p, [], t, fuel) == Done(None, t);
  }

  lemma StoredOnTop(u: State, w: Val)
    requires Sane(u) && "self" in u.frames[|u.frames| - 1]
    ensures var t := SetVar(u, "self", w); var n := |u.frames| - 1;
      Sane(t) && Pop(t) == Pop(u) && |t.frames| == |u.frames| && "self" in t.frames[n] && t.frames[n]["self"] == w
  {}

  /** A call on a variable runs the method that is found on the value of the variable. */
  lemma InvokeRuns(p: Program, y: Name, m: Name, args: seq<Expr>, self: Val, vs: seq<Val>, fn: Fn, s: State, fuel: nat)
    requires Sane(s) && fuel >= 2 && GetVar(s, y) == Some(self) && self.Obj? && Literals(args, vs) && FindMethod(p, self.cls, m) == Some(fn)
    ensures EvalExpr(p, Invoke(Var(y), m, args), s, fuel) == RunMethod(p, fn, Var(y), self, vs, s, fuel - 1)
  {
    LiteralArgs(p, args, vs, s, fuel - 1);
    assert EvalExpr(p, Var(y), s, fuel - 1) == Done(Value(self), s);
    assert Peek(p, Var(y), s, fuel - 1) == Done((), s);
    assert EvalReceiver(p, Var(y), m, vs, s, fuel) == RunMethod(p, fn, Var(y), self, vs, s, fuel - 1);
    InvokeThrough(p, Var(y), m, args, s, s, vs, s, fuel);
  }

  /** A receiver is evaluated twice: one that counts has counted two before the call fails. */
  lemma ReceiverTwice(p: Program, y: Name, a: int, m: Name, s: State, fuel: nat)
    requires Sane(s) && fuel >= 5 && GetVar(s, y) == Some(Num(a))
    ensures var r := EvalExpr(p, Invoke(Store(y, Binary(Add, Var(y), Lit(Num(1)))), m, []), s, fuel);
      r.Fail? && r.open == 0 && GetVar(r.s, y) == Some(Num(a + 2))
  {
    var obj := Store(y, Binary(Add, Var(y), Lit(Num(1))));
    var t, u := SetVar(s, y, Num(a + 1)), SetVar(SetVar(s, y, Num(a + 1)), y, Num(a + 2));
    SetVarLeads(s, y, Num(a + 1));
    AssignedVariable(s, y, Num(a + 1), y);
    AssignedVariable(t, y, Num(a + 2), y);
    CountsOne(p, y, a, s, fuel - 1);
    CountsOne(p, y, a + 1, t, fuel - 1);
    assert Peek(p, obj, s, fuel - 1) == Done((), t);
    assert EvalArgs(p, [], t, fuel - 1) == Done([], t);
    assert EvalReceiver(p, obj, m, [], t, fuel) == Fail(u, 0);
    InvokeThrough(p, obj, m, [], s, t, [], t, fuel);
  }

  lemma CountsOne(p: Program, y: Name, a: int, s: State, fuel: nat)
    requires Sane(s) && fuel >= 3 && GetVar(s, y) == Some(Num(a))
    ensures EvalExpr(p, Store(y, Binary(Add, Var(y), Lit(Num(1)))), s, fuel) == Done(Value(Num(a + 1)), SetVar(s, y, Num(a + 1)))
  {
    var e := Binary(Add, Var(y), Lit(Num(1)));
    assert EvalExpr(p, Lit(Num(1)), s, fuel - 2) == Done(Value(Num(1)), s);
    assert EvalExpr(p, Var(y), s, fuel - 2) == Done(Value(Num(a)), s);
    assert EvalBinary(p, Add, Var(y), Lit(Num(1)), s, fuel - 1) == Done(Value(Num(a + 1)), s);
    assert EvalExpr(p, e, s, fuel - 1) == Done(Value(Num(a + 1)), s);
    assert EvalStore(p, y, e, s, fuel) == Done(Value(Num(a + 1)), SetVar(s, y, Num(a + 1)));
  }

  // ----- errors -----

  /** What is not there, or not of the right kind, is an error that passes no frame. */
  lemma WrongKind(p: Program, x: Name, v: Val, s: State, fuel: nat)
    requires Sane(s) && fuel >= 3 && !v.Num?
    ensures EvalExpr(p, Binary(Add, Lit(v), Lit(Num(0))), s, fuel) == Fail(s, 0)
    ensures Exec(p, For(x, Lit(v), []), s, fuel) == Fail(s, 0)
  {
    assert EvalExpr(p, Lit(v), s, fuel - 1) == Done(Value(v), s);
    assert EvalExpr(p, Lit(Num(0)), s, fuel - 1) == Done(Value(Num(0)), s);
    assert EvalBinary(p, Add, Lit(v), Lit(Num(0)), s, fuel) == Fail(s, 0);
    assert ExecFor(p, x, Lit(v), [], s, fuel) == Fail(s, 0);
  }

  /** `?` on anything but a result is an error. */
  lemma NoResult(p: Program, v: Val, s: State, fuel: nat)
    requires Sane(s) && fuel >= 2 && !v.Res?
    ensures EvalExpr(p, Try(Lit(v)), s, fuel) == Fail(s, 0)
  {
    assert EvalExpr(p, Lit(v), s, fuel - 1) == Done(Value(v), s);
    assert EvalTry(p, Lit(v), s, fuel) == Fail(s, 0);
  }

  /** Reading an unknown variable, calling an unknown function and an instance of an unknown class are errors. */
  lemma UnknownNames(p: Program, f: Name, s: State, fuel: nat)
    requires Sane(s) && fuel >= 2
    ensures GetVar(s, f) == None ==> EvalExpr(p, Var(f), s, fuel) == Fail(s, 0)
    ensures f !in p.functions ==> EvalExpr(p, Call(f, []), s, fuel) == Fail(s, 0)
    ensures f !in p.classes ==> EvalExpr(p, New(f, []), s, fuel) == Fail(s, 0)
  {
    assert EvalArgs(p, [], s, fuel - 1) == Done([], s);
    if f !in p.functions { assert EvalCall(p, f, [], s, fuel) == Fail(s, 0); }
    if f !in p.classes { assert EvalNew(p, f, [], s, fuel) == Fail(s, 0); }
    assert EvalExpr(p, Call(f, []), s, fuel) == EvalOpening(p, Call(f, []), s, fuel);
    assert EvalExpr(p, New(f, []), s, fuel) == EvalOpening(p, New(f, []), s, fuel);
  }
}
