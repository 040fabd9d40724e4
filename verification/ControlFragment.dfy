/** The two models of the interpreter agree: on the statements that both have, the one of control flow
    leaves the variables that the one of the integer fragment leaves. */
module ControlFragment {
  import opened Wrappers
  import Int64
  import A = Ast
  import I = Interp
  import F = FrameFacts
  import opened Control

  // ----- the statements that both have -----

  predicate SharedExpr(e: A.Expr) {
    match e
    case LitInt(_) => true
    case Ident(_) => true
    case UnOp(_, _) => false
    case BinOp(op, l, r) => op.Add? && SharedExpr(l) && SharedExpr(r)
  }

  predicate SharedCond(c: A.Cond) {
    match c
    case LitBool(_) => true
    case Not(_) => false
    case Cmp(op, l, r) => op.Lt? && SharedExpr(l) && SharedExpr(r)
  }

  predicate Shared(s: A.Stmt)
    decreases s, 0
  {
    match s
    case Decl(_, e, _) => SharedExpr(e)
    case Assign(_, e) => SharedExpr(e)
    case Print(_) => false
    case If(c, thn, els) => SharedCond(c) && SharedBody(thn) && SharedBody(els)
    case While(c, body) => SharedCond(c) && SharedBody(body)
    case For(_, it, body) => it.Upto? && SharedExpr(it.end) && SharedBody(body)
  }

  predicate SharedBody(b: seq<A.Stmt>)
    decreases b, 1
  {
    b == [] || (Shared(b[0]) && SharedBody(b[1..]))
  }

  function ExprOf(e: A.Expr): Expr
    requires SharedExpr(e)
  {
    match e
    case LitInt(n) => Lit(Num(n))
    case Ident(x) => Var(x)
    case BinOp(_, l, r) => Binary(Add, ExprOf(l), ExprOf(r))
  }

  function CondOf(c: A.Cond): Expr
    requires SharedCond(c)
  {
    match c
    case LitBool(b) => Lit(Bool(b))
    case Cmp(_, l, r) => Binary(Less, ExprOf(l), ExprOf(r))
  }

  function StmtOf(s: A.Stmt): Stmt
    requires Shared(s)
    decreases s, 0
  {
    match s
    case Decl(x, e, _) => Stmt.Decl(x, ExprOf(e))
    case Assign(x, e) => Stmt.Assign(x, ExprOf(e))
    case If(c, thn, els) => Stmt.If(CondOf(c), BodyOf(thn), Else(BodyOf(els)))
    case While(c, body) => Stmt.While(CondOf(c), BodyOf(body))
    case For(x, it, body) => Stmt.For(x, ExprOf(it.end), BodyOf(body))
  }

  function BodyOf(b: seq<A.Stmt>): (r: seq<Stmt>)
    requires SharedBody(b)
    ensures |r| == |b|
    decreases b, 1
  {
    if b == [] then [] else [StmtOf(b[0])] + BodyOf(b[1..])
  }

  // ----- the same variables -----

  function FrameOf(f: I.Frame): Frame { map x | x in f :: Num(f[x]) }

  function FramesOf(fs: seq<I.Frame>): (r: seq<Frame>)
    ensures |r| == |fs| && forall i :: 0 <= i < |r| ==> r[i] == FrameOf(fs[i])
  {
    seq(|fs|, i requires 0 <= i < |fs| => FrameOf(fs[i]))
  }

  /** The state has these variables, and no globals. */
  predicate Like(s: State, fs: seq<I.Frame>) {
    Sane(s) && fs != [] && s.frames == FramesOf(fs) && s.globals == map[]
  }

  function With(s: State, fs: seq<I.Frame>): State { s.(frames := FramesOf(fs)) }

  lemma LikeWith(s: State, fs: seq<I.Frame>, gs: seq<I.Frame>)
    requires Like(s, fs) && |gs| == |fs|
    ensures Like(With(s, gs), gs) && With(s, fs) == s
  {}

  lemma {:induction false} GetAgrees(fs: seq<I.Frame>, x: Name)
    ensures Get(FramesOf(fs), x) == match I.GetVar(fs, x) case Ok(v) => Some(Num(v)) case _ => None
    decreases |fs|
  {
    if fs != [] {
      var n := |fs| - 1;
      assert FramesOf(fs)[..n] == FramesOf(fs[..n]);
      GetAgrees(fs[..n], x);
    }
  }

  lemma PutAgrees(f: I.Frame, x: Name, v: Int64.int64)
    ensures FrameOf(I.Put(f, x, v)) == FrameOf(f)[x := Num(v)]
  {}

  lemma {:induction false} UpdateAgrees(fs: seq<I.Frame>, x: Name, v: Int64.int64)
    ensures Update(FramesOf(fs), x, Num(v)) == FramesOf(I.Update(fs, x, v))
    decreases |fs|
  {
    if fs != [] {
      var n := |fs| - 1;
      assert FramesOf(fs)[..n] == FramesOf(fs[..n]);
      PutAgrees(fs[n], x, v);
      UpdateAgrees(fs[..n], x, v);
      assert FramesOf(I.Update(fs, x, v)) == Update(FramesOf(fs), x, Num(v));
    }
  }

  lemma DeclareAgrees(s: State, fs: seq<I.Frame>, x: Name, v: Int64.int64)
    requires Like(s, fs)
    ensures Insert(s, x, Num(v)) == With(s, I.Declare(fs, x, v))
  {
    PutAgrees(fs[|fs| - 1], x, v);
    assert Insert(s, x, Num(v)).frames == FramesOf(I.Declare(fs, x, v));
  }

  lemma SetAgrees(s: State, fs: seq<I.Frame>, x: Name, v: Int64.int64)
    requires Like(s, fs)
    ensures SetVar(s, x, Num(v)) == With(s, I.SetVar(fs, x, v))
  {
    GetAgrees(fs, x);
    F.GetVarFlat(fs, x);
    F.BoundFlat(fs, x);
    if I.Bound(fs, x) { UpdateAgrees(fs, x, v); } else { DeclareAgrees(s, fs, x, v); }
  }

  // ----- expressions -----

  function Seen(p: Program, e: Expr, s: State, fuel: nat): bool { true }

  /** With fuel n or more the expression has this value and changes nothing. */
  ghost predicate Gives(p: Program, e: Expr, s: State, v: Val, n: nat)
    requires Sane(s)
  {
    forall fuel: nat {:trigger Seen(p, e, s, fuel)} :: Seen(p, e, s, fuel) && fuel >= n ==> EvalExpr(p, e, s, fuel) == Done(Value(v), s)
  }

  lemma GivesAt(p: Program, e: Expr, s: State, v: Val, n: nat, fuel: nat)
    requires Sane(s) && Gives(p, e, s, v, n) && fuel >= n
    ensures EvalExpr(p, e, s, fuel) == Done(Value(v), s)
  {
    assert Seen(p, e, s, fuel);
  }

  lemma AtomGives(p: Program, e: Expr, s: State, v: Val)
    requires Sane(s) && (e == Lit(v) || (e.Var? && GetVar(s, e.x) == Some(v)))
    ensures Gives(p, e, s, v, 1)
  {}

  lemma BinaryAt(p: Program, op: Op, l: Expr, r: Expr, s: State, a: Val, b: Val, v: Val, fuel: nat)
    requires Sane(s) && fuel > 0 && Binop(op, a, b) == Some(v)
    requires EvalExpr(p, r, s, fuel - 1) == Done(Value(b), s) && EvalExpr(p, l, s, fuel - 1) == Done(Value(a), s)
    ensures EvalExpr(p, Binary(op, l, r), s, fuel) == Done(Value(v), s)
  {
    assert EvalBinary(p, op, l, r, s, fuel) == Done(Value(v), s);
  }

  lemma BinaryGives(p: Program, op: Op, l: Expr, r: Expr, s: State, a: Val, b: Val, v: Val, n: nat)
    requires Sane(s) && Binop(op, a, b) == Some(v) && Gives(p, l, s, a, n) && Gives(p, r, s, b, n)
    ensures Gives(p, Binary(op, l, r), s, v, n + 1)
  {
    forall fuel: nat | Seen(p, Binary(op, l, r), s, fuel) && fuel >= n + 1
      ensures EvalExpr(p, Binary(op, l, r), s, fuel) == Done(Value(v), s)
    {
      GivesAt(p, l, s, a, n, fuel - 1);
      GivesAt(p, r, s, b, n, fuel - 1);
      BinaryAt(p, op, l, r, s, a, b, v, fuel);
    }
  }

  lemma GivesLater(p: Program, e: Expr, s: State, v: Val, n: nat, m: nat)
    requires Sane(s) && Gives(p, e, s, v, n) && n <= m
    ensures Gives(p, e, s, v, m)
  {}

  function Max(a: nat, b: nat): nat { if a < b then b else a }

  lemma BothGive(p: Program, op: Op, l: Expr, r: Expr, s: State, a: Val, b: Val, v: Val, nl: nat, nr: nat)
    requires Sane(s) && Binop(op, a, b) == Some(v) && Gives(p, l, s, a, nl) && Gives(p, r, s, b, nr)
    ensures Gives(p, Binary(op, l, r), s, v, Max(nl, nr) + 1)
  {
    GivesLater(p, l, s, a, nl, Max(nl, nr));
    GivesLater(p, r, s, b, nr, Max(nl, nr));
    BinaryGives(p, op, l, r, s, a, b, v, Max(nl, nr));
  }

  lemma {:induction false} ExprAgrees(p: Program, e: A.Expr, fs: seq<I.Frame>, s: State) returns (n: nat)
    requires SharedExpr(e) && Like(s, fs) && I.EvalExpr(e, fs).Ok?
    ensures Gives(p, ExprOf(e), s, Num(I.EvalExpr(e, fs).value), n)
    decreases e
  {
    match e
    case LitInt(v) =>
      AtomGives(p, ExprOf(e), s, Num(v));
      n := 1;
    case Ident(x) =>
      GetAgrees(fs, x);
      AtomGives(p, ExprOf(e), s, Num(I.EvalExpr(e, fs).value));
      n := 1;
    case BinOp(op, l, r) =>
      var nr := ExprAgrees(p, r, fs, s);
      var nl := ExprAgrees(p, l, fs, s);
      var a, b := I.EvalExpr(l, fs).value, I.EvalExpr(r, fs).value;
      BothGive(p, Add, ExprOf(l), ExprOf(r), s, Num(a), Num(b), Num(I.EvalExpr(e, fs).value), nl, nr);
      n := Max(nl, nr) + 1;
  }

  /** A comparison through floats that is not noted is the exact one. */
  lemma LessAgrees(a: Int64.int64, b: Int64.int64)
    requires !I.Conflated(A.Lt, a, b)
    ensures I.CompareF64(A.Lt, a, b) <==> a < b
  {
    if a <= b { Int64.ToF64Mono(a, b); } else { Int64.ToF64Mono(b, a); }
  }

  lemma SameTruth(p: Program, e: Expr, s: State, b: bool, c: bool, n: nat)
    requires Sane(s) && Gives(p, e, s, Bool(b), n) && b == c
    ensures Gives(p, e, s, Bool(c), n)
  {}

  lemma CondAgrees(p: Program, c: A.Cond, fs: seq<I.Frame>, s: State) returns (n: nat)
    requires SharedCond(c) && Like(s, fs) && I.EvalCond(c, fs).Ok? && I.RoundedCompare !in I.EvalCond(c, fs).value.notes
    ensures Gives(p, CondOf(c), s, Bool(I.EvalCond(c, fs).value.b), n)
  {
    match c
    case LitBool(b) =>
      AtomGives(p, CondOf(c), s, Bool(b));
      n := 1;
    case Cmp(op, l, r) =>
      var nr := ExprAgrees(p, r, fs, s);
      var nl := ExprAgrees(p, l, fs, s);
      var a, b := I.EvalExpr(l, fs).value, I.EvalExpr(r, fs).value;
      LessAgrees(a, b);
      BothGive(p, Less, ExprOf(l), ExprOf(r), s, Num(a), Num(b), Bool(I.EvalCond(c, fs).value.b), nl, nr);
      n := Max(nl, nr) + 1;
  }

  // ----- statements -----

  function Reached(p: Program, st: Stmt, s: State, fuel: nat): bool { true }

  /** With fuel n or more the statement ends in this state. */
  ghost predicate Ends(p: Program, st: Stmt, s: State, t: State, n: nat)
    requires Sane(s)
  {
    forall fuel: nat {:trigger Reached(p, st, s, fuel)} :: Reached(p, st, s, fuel) && fuel >= n ==> Exec(p, st, s, fuel) == Done(None, t)
  }

  function ReachedBody(p: Program, b: seq<Stmt>, s: State, fuel: nat): bool { true }

  ghost predicate EndsBody(p: Program, b: seq<Stmt>, s: State, t: State, n: nat)
    requires Sane(s)
  {
    forall fuel: nat {:trigger ReachedBody(p, b, s, fuel)} :: ReachedBody(p, b, s, fuel) && fuel >= n ==> ExecBody(p, b, s, fuel) == Done(None, t)
  }

  function ReachedScope(p: Program, xs: seq<Name>, vs: seq<Val>, b: seq<Stmt>, s: State, fuel: nat): bool { true }

  ghost predicate EndsScope(p: Program, xs: seq<Name>, vs: seq<Val>, b: seq<Stmt>, s: State, t: State, n: nat)
    requires Sane(s)
  {
    forall fuel: nat {:trigger ReachedScope(p, xs, vs, b, s, fuel)} :: ReachedScope(p, xs, vs, b, s, fuel) && fuel >= n
      ==> Scope(p, xs, vs, b, s, fuel) == Done(None, t)
  }

  lemma ScopeAt(p: Program, xs: seq<Name>, vs: seq<Val>, b: seq<Stmt>, s: State, t: State, n: nat, fuel: nat)
    requires Sane(s) && EndsScope(p, xs, vs, b, s, t, n) && fuel >= n
    ensures Scope(p, xs, vs, b, s, fuel) == Done(None, t)
  {
    assert ReachedScope(p, xs, vs, b, s, fuel);
  }

  lemma AssignEnds(p: Program, st: Stmt, x: Name, e: Expr, s: State, v: Val, n: nat)
    requires Sane(s) && Gives(p, e, s, v, n) && Copyable(v) && (st == Stmt.Decl(x, e) || st == Stmt.Assign(x, e))
    ensures Ends(p, st, s, if st.Decl? then Insert(s, x, v) else SetVar(s, x, v), n + 1)
  {
    forall fuel: nat | Reached(p, st, s, fuel) && fuel >= n + 1
      ensures Exec(p, st, s, fuel) == Done(None, if st.Decl? then Insert(s, x, v) else SetVar(s, x, v))
    {
      GivesAt(p, e, s, v, n, fuel - 1);
      AssignAt(p, st, x, e, s, v, fuel);
    }
  }

  lemma AssignAt(p: Program, st: Stmt, x: Name, e: Expr, s: State, v: Val, fuel: nat)
    requires Sane(s) && fuel > 0 && EvalExpr(p, e, s, fuel - 1) == Done(Value(v), s) && Copyable(v)
    requires st == Stmt.Decl(x, e) || st == Stmt.Assign(x, e)
    ensures Exec(p, st, s, fuel) == Done(None, if st.Decl? then Insert(s, x, v) else SetVar(s, x, v))
  {
    assert MarkMoved(s, e, v) == s;
    if st.Decl? {
      assert ExecDecl(p, x, e, s, fuel) == Done(None, Insert(s, x, v));
    } else {
      assert ExecAssign(p, x, e, s, fuel) == Done(None, SetVar(s, x, v));
    }
  }

  lemma IfEnds(p: Program, c: Expr, thn: seq<Stmt>, els: seq<Stmt>, s: State, b: bool, t: State, n: nat, m: nat)
    requires Sane(s) && Gives(p, c, s, Bool(b), n) && EndsScope(p, [], [], if b then thn else els, s, t, m)
    ensures Ends(p, Stmt.If(c, thn, Else(els)), s, t, Max(n, m) + 1)
  {
    var st := Stmt.If(c, thn, Else(els));
    forall fuel: nat | Reached(p, st, s, fuel) && fuel >= Max(n, m) + 1 ensures Exec(p, st, s, fuel) == Done(None, t) {
      GivesAt(p, c, s, Bool(b), n, fuel - 1);
      ScopeAt(p, [], [], if b then thn else els, s, t, m, fuel - 1);
      IfAt(p, c, thn, els, s, b, t, fuel);
    }
  }

  lemma IfAt(p: Program, c: Expr, thn: seq<Stmt>, els: seq<Stmt>, s: State, b: bool, t: State, fuel: nat)
    requires Sane(s) && fuel > 0 && EvalExpr(p, c, s, fuel - 1) == Done(Value(Bool(b)), s)
    requires Scope(p, [], [], if b then thn else els, s, fuel - 1) == Done(None, t)
    ensures Exec(p, Stmt.If(c, thn, Else(els)), s, fuel) == Done(None, t)
  {
    assert ExecIf(p, c, thn, Else(els), s, fuel) == Done(None, t);
  }

  // ----- loops -----

  function ReachedWhile(p: Program, c: Expr, b: seq<Stmt>, s: State, fuel: nat): bool { true }

  ghost predicate EndsWhile(p: Program, c: Expr, b: seq<Stmt>, s: State, t: State, n: nat)
    requires Sane(s) && n > 0
  {
    forall fuel: nat {:trigger ReachedWhile(p, c, b, s, fuel)} :: ReachedWhile(p, c, b, s, fuel) && fuel >= n
      ==> ExecWhile(p, c, b, s, fuel) == Done(None, t)
  }

  lemma WhileStops(p: Program, c: Expr, b: seq<Stmt>, s: State, go: bool, n: nat)
    requires Sane(s) && !go && Gives(p, c, s, Bool(go), n)
    ensures EndsWhile(p, c, b, s, s, n + 1)
  {
    forall fuel: nat | ReachedWhile(p, c, b, s, fuel) && fuel >= n + 1 ensures ExecWhile(p, c, b, s, fuel) == Done(None, s) {
      GivesAt(p, c, s, Bool(go), n, fuel - 1);
    }
  }

  lemma WhileGoes(p: Program, c: Expr, b: seq<Stmt>, s: State, u: State, t: State, go: bool, n: nat, m: nat, k: nat)
    requires Sane(s) && Sane(u) && k > 0 && go && Gives(p, c, s, Bool(go), n) && EndsScope(p, [], [], b, s, u, m) && EndsWhile(p, c, b, u, t, k)
    ensures EndsWhile(p, c, b, s, t, Max(n, Max(m, k)) + 1)
  {
    forall fuel: nat | ReachedWhile(p, c, b, s, fuel) && fuel >= Max(n, Max(m, k)) + 1 ensures ExecWhile(p, c, b, s, fuel) == Done(None, t) {
      GivesAt(p, c, s, Bool(go), n, fuel - 1);
      ScopeAt(p, [], [], b, s, u, m, fuel - 1);
      assert ReachedWhile(p, c, b, u, fuel - 1);
      WhileAt(p, c, b, s, u, t, fuel);
    }
  }

  lemma WhileAt(p: Program, c: Expr, b: seq<Stmt>, s: State, u: State, t: State, fuel: nat)
    requires Sane(s) && Sane(u) && fuel > 1 && EvalExpr(p, c, s, fuel - 1) == Done(Value(Bool(true)), s)
    requires Scope(p, [], [], b, s, fuel - 1) == Done(None, u) && ExecWhile(p, c, b, u, fuel - 1) == Done(None, t)
    ensures ExecWhile(p, c, b, s, fuel) == Done(None, t)
  {}

  lemma WhileEnds(p: Program, c: Expr, b: seq<Stmt>, s: State, t: State, n: nat)
    requires Sane(s) && n > 0 && EndsWhile(p, c, b, s, t, n)
    ensures Ends(p, Stmt.While(c, b), s, t, n)
  {
    forall fuel: nat | Reached(p, Stmt.While(c, b), s, fuel) && fuel >= n ensures Exec(p, Stmt.While(c, b), s, fuel) == Done(None, t) {
      assert ReachedWhile(p, c, b, s, fuel);
    }
  }

  function ReachedRounds(p: Program, x: Name, i: int, end: int, b: seq<Stmt>, s: State, fuel: nat): bool { true }

  ghost predicate EndsRounds(p: Program, x: Name, i: int, end: int, b: seq<Stmt>, s: State, t: State, n: nat)
    requires Sane(s)
  {
    forall fuel: nat {:trigger ReachedRounds(p, x, i, end, b, s, fuel)} :: ReachedRounds(p, x, i, end, b, s, fuel) && fuel >= n
      ==> Rounds(p, x, i, end, b, s, fuel) == Done(None, t)
  }

  lemma RoundsStop(p: Program, x: Name, i: int, end: int, b: seq<Stmt>, s: State)
    requires Sane(s) && i >= end
    ensures EndsRounds(p, x, i, end, b, s, s, 1)
  {}

  lemma RoundsGo(p: Program, x: Name, i: int, end: int, b: seq<Stmt>, s: State, u: State, t: State, m: nat, k: nat)
    requires Sane(s) && Sane(u) && i < end && EndsScope(p, [x], [Num(i)], b, s, u, m) && EndsRounds(p, x, i + 1, end, b, u, t, k)
    ensures EndsRounds(p, x, i, end, b, s, t, Max(m, k) + 1)
  {
    forall fuel: nat | ReachedRounds(p, x, i, end, b, s, fuel) && fuel >= Max(m, k) + 1 ensures Rounds(p, x, i, end, b, s, fuel) == Done(None, t) {
      ScopeAt(p, [x], [Num(i)], b, s, u, m, fuel - 1);
      assert ReachedRounds(p, x, i + 1, end, b, u, fuel - 1);
    }
  }

  lemma ForEnds(p: Program, x: Name, e: Expr, end: int, b: seq<Stmt>, s: State, t: State, n: nat, m: nat)
    requires Sane(s) && Gives(p, e, s, Num(end), n) && EndsRounds(p, x, 0, end, b, s, t, m)
    ensures Ends(p, Stmt.For(x, e, b), s, t, Max(n, m) + 1)
  {
    forall fuel: nat | Reached(p, Stmt.For(x, e, b), s, fuel) && fuel >= Max(n, m) + 1 ensures Exec(p, Stmt.For(x, e, b), s, fuel) == Done(None, t) {
      GivesAt(p, e, s, Num(end), n, fuel - 1);
      assert ReachedRounds(p, x, 0, end, b, s, fuel - 1);
      ForAt(p, x, e, end, b, s, t, fuel);
    }
  }

  lemma ForAt(p: Program, x: Name, e: Expr, end: int, b: seq<Stmt>, s: State, t: State, fuel: nat)
    requires Sane(s) && fuel > 0 && EvalExpr(p, e, s, fuel - 1) == Done(Value(Num(end)), s)
    requires Rounds(p, x, 0, end, b, s, fuel - 1) == Done(None, t)
    ensures Exec(p, Stmt.For(x, e, b), s, fuel) == Done(None, t)
  {
    assert ExecFor(p, x, e, b, s, fuel) == Done(None, t);
  }

  // ----- bodies -----

  lemma NothingEnds(p: Program, s: State)
    requires Sane(s)
    ensures EndsBody(p, [], s, s, 0)
  {}

  lemma OneMoreEnds(p: Program, st: Stmt, b: seq<Stmt>, s: State, u: State, t: State, n: nat, m: nat)
    requires Sane(s) && Sane(u) && Ends(p, st, s, u, n) && EndsBody(p, b, u, t, m)
    ensures EndsBody(p, [st] + b, s, t, Max(n, m))
  {
    forall fuel: nat | ReachedBody(p, [st] + b, s, fuel) && fuel >= Max(n, m) ensures ExecBody(p, [st] + b, s, fuel) == Done(None, t) {
      assert Reached(p, st, s, fuel) && ReachedBody(p, b, u, fuel);
      assert ([st] + b)[1..] == b;
    }
  }

  lemma ScopeEnds(p: Program, xs: seq<Name>, vs: seq<Val>, b: seq<Stmt>, s: State, t: State, n: nat)
    requires Sane(s) && Sane(t) && EndsBody(p, b, InsertAll(Push(s), xs, vs, 0), t, n)
    ensures EndsScope(p, xs, vs, b, s, Pop(t), n)
  {
    forall fuel: nat | ReachedScope(p, xs, vs, b, s, fuel) && fuel >= n ensures Scope(p, xs, vs, b, s, fuel) == Done(None, Pop(t)) {
      assert ReachedBody(p, b, InsertAll(Push(s), xs, vs, 0), fuel);
    }
  }

  /** A frame for a body, with the variable of a loop or none. */
  lemma FrameAgrees(s: State, fs: seq<I.Frame>, xs: seq<Name>, vs: seq<Val>, top: I.Frame)
    requires Like(s, fs) && ((xs == [] && vs == [] && top == map[]) || (|xs| == 1 && exists v: Int64.int64 :: vs == [Num(v)] && top == map[xs[0] := v]))
    ensures InsertAll(Push(s), xs, vs, 0) == With(Push(s), fs + [top]) && Like(With(Push(s), fs + [top]), fs + [top])
  {
    var u := InsertAll(Push(s), xs, vs, 0);
    assert FramesOf(fs + [top]) == FramesOf(fs) + [FrameOf(top)];
    if xs != [] {
      assert u == InsertAll(Insert(Push(s), xs[0], vs[0]), xs, vs, 1) == Insert(Push(s), xs[0], vs[0]);
      assert FrameOf(top) == map[][xs[0] := vs[0]];
    }
    assert u.frames == FramesOf(fs + [top]);
  }

  lemma PopAgrees(s: State, fs: seq<I.Frame>, gs: seq<I.Frame>)
    requires Like(s, fs) && |gs| == |fs| + 1
    ensures Pop(With(Push(s), gs)) == With(s, gs[..|fs|])
  {
    assert FramesOf(gs)[..|fs|] == FramesOf(gs[..|fs|]);
    assert Push(s).moved[..|fs|] == s.moved;
  }

  // ----- the two interpreters -----

  predicate Exact(st: I.State) { I.RoundedCompare !in st.notes }

  lemma {:induction false} StmtAgrees(p: Program, st: A.Stmt, r0: I.State, fuel: nat, s: State) returns (n: nat)
    requires Shared(st) && Like(s, r0.frames) && I.Exec(st, r0, fuel).Ok? && Exact(I.Exec(st, r0, fuel).value)
    ensures Ends(p, StmtOf(st), s, With(s, I.Exec(st, r0, fuel).value.frames), n)
    decreases fuel, st, 2
  {
    match st
    case Decl(x, e, _) =>
      var v := I.EvalExpr(e, r0.frames).value;
      var m := ExprAgrees(p, e, r0.frames, s);
      DeclareAgrees(s, r0.frames, x, v);
      AssignEnds(p, StmtOf(st), x, ExprOf(e), s, Num(v), m);
      n := m + 1;
    case Assign(x, e) =>
      var v := I.EvalExpr(e, r0.frames).value;
      var m := ExprAgrees(p, e, r0.frames, s);
      SetAgrees(s, r0.frames, x, v);
      AssignEnds(p, StmtOf(st), x, ExprOf(e), s, Num(v), m);
      n := m + 1;
    case If(c, thn, els) =>
      var t := I.EvalCond(c, r0.frames).value;
      var body := if t.b then thn else els;
      var r1 := r0.(notes := r0.notes + t.notes);
      F.ScopeNotes(map[], body, r1, fuel);
      var nc := CondAgrees(p, c, r0.frames, s);
      var nb := ScopeAgrees(p, [], [], map[], body, r1, fuel, s);
      IfEnds(p, CondOf(c), BodyOf(thn), BodyOf(els), s, t.b, With(s, I.ExecScope(map[], body, r1, fuel).value.frames), nc, nb);
      n := Max(nc, nb) + 1;
    case While(c, body) =>
      n := WhileAgrees(p, st, r0, fuel, I.Exec(st, r0, fuel).value, s);
      WhileEnds(p, CondOf(c), BodyOf(body), s, With(s, I.Exec(st, r0, fuel).value.frames), n);
    case For(x, it, body) =>
      var bounds := I.EvalIter(it, r0.frames).value;
      var r1 := r0.(notes := r0.notes + if bounds.Differ() then {I.IterationsDiffer} else {});
      var ne := ExprAgrees(p, it.end, r0.frames, s);
      var nr := RoundsAgree(p, x, 0, bounds.n, body, r1, fuel, s);
      ForEnds(p, x, ExprOf(it.end), bounds.n, BodyOf(body), s, With(s, I.Exec(st, r0, fuel).value.frames), ne, nr);
      n := Max(ne, nr) + 1;
  }

  /** What a loop of the integer fragment does first: it stops, or goes round. */
  lemma OneRound(st: A.Stmt, r0: I.State, fuel: nat, end: I.State) returns (go: bool, r1: I.State, r2: I.State)
    requires st.While? && r0.frames != [] && I.Exec(st, r0, fuel) == I.Ok(end) && Exact(end)
    ensures var c := I.EvalCond(st.cond, r0.frames); c.Ok? && I.RoundedCompare !in c.value.notes && c.value.b == go
    ensures !go ==> end.frames == r0.frames
    ensures go ==> fuel > 0 && r1.frames == r0.frames && I.ExecScope(map[], st.body, r1, fuel - 1) == I.Ok(r2)
    ensures go ==> Exact(r2) && |r2.frames| == |r0.frames| && I.Exec(st, r2, fuel - 1) == I.Ok(end)
  {
    var c := I.EvalCond(st.cond, r0.frames).value;
    go, r1, r2 := c.b, r0.(notes := r0.notes + c.notes), r0;
    if go {
      r2 := I.ExecScope(map[], st.body, r1, fuel - 1).value;
      F.ExecNotes(st, r2, fuel - 1);
      F.ScopeNotes(map[], st.body, r1, fuel - 1);
    }
  }

  lemma RoundAgrees(p: Program, st: A.Stmt, fs: seq<I.Frame>, s: State, go: bool) returns (n: nat)
    requires st.While? && SharedCond(st.cond) && Like(s, fs)
    requires var c := I.EvalCond(st.cond, fs); c.Ok? && I.RoundedCompare !in c.value.notes && c.value.b == go
    ensures Gives(p, CondOf(st.cond), s, Bool(go), n)
  {
    n := CondAgrees(p, st.cond, fs, s);
    SameTruth(p, CondOf(st.cond), s, I.EvalCond(st.cond, fs).value.b, go, n);
  }

  lemma FirstRound(p: Program, st: A.Stmt, r0: I.State, fuel: nat, end: I.State, s: State)
    returns (go: bool, r1: I.State, r2: I.State, nc: nat)
    requires st.While? && Shared(st) && Like(s, r0.frames) && I.Exec(st, r0, fuel) == I.Ok(end) && Exact(end)
    ensures Gives(p, CondOf(st.cond), s, Bool(go), nc) && (!go ==> end.frames == r0.frames)
    ensures go ==> fuel > 0 && Like(s, r1.frames) && I.ExecScope(map[], st.body, r1, fuel - 1) == I.Ok(r2)
    ensures go ==> Exact(r2) && |r2.frames| == |r1.frames| && I.Exec(st, r2, fuel - 1) == I.Ok(end)
  {
    go, r1, r2 := OneRound(st, r0, fuel, end);
    nc := RoundAgrees(p, st, r0.frames, s, go);
  }

  lemma {:induction false} WhileAgrees(p: Program, st: A.Stmt, r0: I.State, fuel: nat, end: I.State, s: State) returns (n: nat)
    requires st.While? && Shared(st) && Like(s, r0.frames) && I.Exec(st, r0, fuel) == I.Ok(end) && Exact(end)
    ensures n > 0 && EndsWhile(p, CondOf(st.cond), BodyOf(st.body), s, With(s, end.frames), n)
    decreases fuel, st, 1
  {
    var go, r1, r2, nc := FirstRound(p, st, r0, fuel, end, s);
    if go {
      n := WhileMore(p, st, r1, r2, fuel - 1, end, s, go, nc);
    } else {
      n := WhileStays(p, st, r0.frames, s, go, nc);
    }
  }

  lemma WhileStays(p: Program, st: A.Stmt, fs: seq<I.Frame>, s: State, go: bool, nc: nat) returns (n: nat)
    requires st.While? && Shared(st) && Like(s, fs) && !go && Gives(p, CondOf(st.cond), s, Bool(go), nc)
    ensures n > 0 && EndsWhile(p, CondOf(st.cond), BodyOf(st.body), s, With(s, fs), n)
  {
    WhileStops(p, CondOf(st.cond), BodyOf(st.body), s, go, nc);
    LikeWith(s, fs, fs);
    n := nc + 1;
  }

  lemma {:induction false} WhileMore(p: Program, st: A.Stmt, r1: I.State, r2: I.State, fuel: nat, end: I.State, s: State, go: bool, nc: nat)
    returns (n: nat)
    requires st.While? && Shared(st) && Like(s, r1.frames) && |r2.frames| == |r1.frames| && Exact(r2) && Exact(end)
    requires I.ExecScope(map[], st.body, r1, fuel) == I.Ok(r2) && I.Exec(st, r2, fuel) == I.Ok(end)
    requires go && Gives(p, CondOf(st.cond), s, Bool(go), nc)
    ensures n > 0 && EndsWhile(p, CondOf(st.cond), BodyOf(st.body), s, With(s, end.frames), n)
    decreases fuel, st, 3
  {
    var u, t := With(s, r2.frames), With(s, end.frames);
    LikeWith(s, r1.frames, r2.frames);
    var nb := ScopeAgrees(p, [], [], map[], st.body, r1, fuel, s);
    var nw := WhileAgrees(p, st, r2, fuel, end, u);
    assert With(u, end.frames) == t;
    WhileGoes(p, CondOf(st.cond), BodyOf(st.body), s, u, t, go, nc, nb, nw);
    n := Max(nc, Max(nb, nw)) + 1;
  }

  lemma {:induction false} RoundsAgree(p: Program, x: Name, i: nat, end: int, body: seq<A.Stmt>, r0: I.State, fuel: nat, s: State) returns (n: nat)
    requires SharedBody(body) && Like(s, r0.frames) && Int64.Fits(end)
    requires var r := I.ExecFor(x, I.Ascend(i, end - 1), body, r0, fuel); r.Ok? && Exact(r.value)
    ensures EndsRounds(p, x, i, end, BodyOf(body), s, With(s, I.ExecFor(x, I.Ascend(i, end - 1), body, r0, fuel).value.frames), n)
    decreases fuel, body, 3, end - i
  {
    var vs := I.Ascend(i, end - 1);
    if i >= end {
      RoundsStop(p, x, i, end, BodyOf(body), s);
      LikeWith(s, r0.frames, r0.frames);
      n := 1;
    } else {
      assert vs[0] == i && vs[1..] == I.Ascend(i + 1, end - 1);
      var r2 := I.ExecScope(map[x := vs[0]], body, r0, fuel).value;
      F.ForNotes(x, vs[1..], body, r2, fuel);
      F.ScopeNotes(map[x := vs[0]], body, r0, fuel);
      var m := ScopeAgrees(p, [x], [Num(i)], map[x := vs[0]], body, r0, fuel, s);
      LikeWith(s, r0.frames, r2.frames);
      var u := With(s, r2.frames);
      var k := RoundsAgree(p, x, i + 1, end, body, r2, fuel, u);
      RoundsGo(p, x, i, end, BodyOf(body), s, u, With(s, I.ExecFor(x, vs, body, r0, fuel).value.frames), m, k);
      n := Max(m, k) + 1;
    }
  }

  lemma {:induction false} ScopeAgrees(p: Program, xs: seq<Name>, vs: seq<Val>, top: I.Frame, b: seq<A.Stmt>, r0: I.State, fuel: nat, s: State)
    returns (n: nat)
    requires SharedBody(b) && Like(s, r0.frames) && I.ExecScope(top, b, r0, fuel).Ok? && Exact(I.ExecScope(top, b, r0, fuel).value)
    requires (xs == [] && vs == [] && top == map[]) || (|xs| == 1 && exists v: Int64.int64 :: vs == [Num(v)] && top == map[xs[0] := v])
    ensures EndsScope(p, xs, vs, BodyOf(b), s, With(s, I.ExecScope(top, b, r0, fuel).value.frames), n)
    decreases fuel, b, 2
  {
    var fs := r0.frames + [top];
    var r1 := r0.(frames := fs);
    FrameAgrees(s, r0.frames, xs, vs, top);
    var u := With(Push(s), fs);
    n := BodyAgrees(p, b, r1, fuel, u);
    var gs := I.ExecBlock(b, r1, fuel).value.frames;
    LikeWith(u, fs, gs);
    assert With(u, gs) == With(Push(s), gs);
    ScopeEnds(p, xs, vs, BodyOf(b), s, With(Push(s), gs), n);
    PopAgrees(s, r0.frames, gs);
  }

  lemma {:induction false} BodyAgrees(p: Program, b: seq<A.Stmt>, r0: I.State, fuel: nat, s: State) returns (n: nat)
    requires SharedBody(b) && Like(s, r0.frames) && I.ExecBlock(b, r0, fuel).Ok? && Exact(I.ExecBlock(b, r0, fuel).value)
    ensures EndsBody(p, BodyOf(b), s, With(s, I.ExecBlock(b, r0, fuel).value.frames), n)
    decreases fuel, b, 1
  {
    if b == [] {
      NothingEnds(p, s);
      LikeWith(s, r0.frames, r0.frames);
      n := 0;
    } else {
      var r1 := I.Exec(b[0], r0, fuel).value;
      F.BlockNotes(b[1..], r1, fuel);
      var m := StmtAgrees(p, b[0], r0, fuel, s);
      LikeWith(s, r0.frames, r1.frames);
      var u := With(s, r1.frames);
      var k := BodyAgrees(p, b[1..], r1, fuel, u);
      OneMoreEnds(p, StmtOf(b[0]), BodyOf(b[1..]), s, u, With(s, I.ExecBlock(b, r0, fuel).value.frames), m, k);
      n := Max(m, k);
    }
  }
}
