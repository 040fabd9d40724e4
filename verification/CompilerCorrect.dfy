/** The two back ends print the same, and where they do not. */
module CompilerCorrect {
  import opened Wrappers
  import opened Int64
  import opened Ast
  import opened Ir
  import opened FrameFacts
  import opened Simulation
  import opened StmtSimulation
  import I = Interp
  import G = Codegen
  import N = CodegenNames
  import P = CodegenPaths

  ghost predicate SafePath(p: Code, t: seq<nat>) {
    P.Path(p, t) ==> forall k :: 0 <= k < |t| ==> P.SafeAt(p, t, k)
  }

  /** LLVM takes the text: no register or label is defined twice, and on every path each is defined
      before it is used, and every branch has its targets. */
  ghost predicate Accepted(p: Code) {
    N.DefinedOnce(p) && forall t {:trigger SafePath(p, t)} :: SafePath(p, t)
  }

  /** The machine returns from `main` after printing `out`. */
  ghost predicate Prints(p: Code, out: seq<int64>) {
    exists m :: Reaches(p, Ir.Start(), m) && Returned(p, m) && m.out == out
  }

  /** There is a compiled program, and it returns from `main` after printing `out`. */
  ghost predicate Finishes(p: Code, out: seq<int64>) {
    Accepted(p) && Prints(p, out)
  }

  lemma {:induction false} SameSteps(p: Code, a: seq<Machine>, b: seq<Machine>, i: nat)
    requires Run(p, a) && Run(p, b) && a[0] == b[0] && i < |a| && i < |b|
    ensures a[i] == b[i]
  {
    if i > 0 {
      SameSteps(p, a, b, i - 1);
      assert StepsAt(p, a, i - 1) && StepsAt(p, b, i - 1);
    }
  }

  lemma StepFollows(p: Code, a: seq<Machine>, i: nat)
    requires Run(p, a) && i + 1 < |a|
    ensures Step(p, a[i]) == Some(a[i + 1])
  {
    assert StepsAt(p, a, i);
  }

  /** The machine is deterministic: a program that finishes has one output. */
  lemma OneOutput(p: Code, out1: seq<int64>, out2: seq<int64>)
    requires Prints(p, out1) && Prints(p, out2)
    ensures out1 == out2
  {
    var m1 :| Reaches(p, Ir.Start(), m1) && Returned(p, m1) && m1.out == out1;
    var m2 :| Reaches(p, Ir.Start(), m2) && Returned(p, m2) && m2.out == out2;
    var a :| RunBetween(p, a, Ir.Start(), m1);
    var b :| RunBetween(p, b, Ir.Start(), m2);
    if |a| <= |b| {
      SameSteps(p, a, b, |a| - 1);
      if |a| < |b| { StepFollows(p, b, |a| - 1); }
    } else {
      SameSteps(p, a, b, |b| - 1);
      StepFollows(p, a, |b| - 1);
    }
  }

  lemma StartMatches()
    ensures Match(I.Start, Ir.Start()) && ScopeOf(I.Start) == {}
  {
    var f := I.Start.frames;
    var none: seq<I.Frame> := [map[]];
    assert f[..1] == none && none[..0] == [];
    assert Flat(f) == map[] && NoShadow(f);
  }

  /** The text of a program that reads and assigns visible names only is taken exactly when the
      program declares no name twice. */
  lemma AcceptedExactly(program: seq<Stmt>, n: nat)
    requires ClosedBlock(program, {})
    ensures Accepted(G.Main(program, n)) <==> forall x :: DeclaredIn(program)[x] <= 1
  {
    var p := G.Main(program, n);
    ClosedBlockAssigns(program, {});
    N.SingleAssignment(program, n);
    forall t ensures SafePath(p, t) {
      if P.Path(p, t) {
        forall k | 0 <= k < |t| ensures P.SafeAt(p, t, k) { P.EveryPathSafe(program, n, t, k); }
      }
    }
  }

  /** Where no declaration hides a visible name, the machine prints what the interpreter does. */
  lemma SamePrints(program: seq<Stmt>, n: nat, fuel: nat)
    requires ScopedBlock(program, {}) && AssignsBlock(program, {})
    requires I.RunMain(program, fuel).Ok? && I.RunMain(program, fuel).value.notes == {}
    ensures Prints(G.Main(program, n), I.RunMain(program, fuel).value.output)
  {
    var p := G.Main(program, n);
    var body := G.Block(program, n, map[]).code;
    N.LabelsDistinct(program, n);
    assert CodeAt(p, 0, p);
    SplitLast(p, 0, body, RetVoid);
    StartMatches();
    var m := BlockCorrect(p, 0, program, n, map[], I.Start, fuel, Ir.Start());
    assert Returned(p, m);
  }

  /** For every program that reads and assigns visible names only, and every run of the interpreter
      that ends without an error and without a note: the compiled program prints exactly the output of
      that run, and there is a compiled program exactly when no name is declared twice. */
  lemma SameOutput(program: seq<Stmt>, n: nat, fuel: nat)
    requires ClosedBlock(program, {})
    requires I.RunMain(program, fuel).Ok? && I.RunMain(program, fuel).value.notes == {}
    ensures var result := I.RunMain(program, fuel).value.output;
      forall out :: Finishes(G.Main(program, n), out) <==> out == result && forall x :: DeclaredIn(program)[x] <= 1
  {
    var p, result := G.Main(program, n), I.RunMain(program, fuel).value.output;
    AcceptedExactly(program, n);
    if Accepted(p) {
      OnceIsScoped(program);
      SamePrints(program, n, fuel);
      forall out | Finishes(p, out) ensures out == result {
        OneOutput(p, out, result);
      }
    }
  }

  lemma OnceIsScoped(program: seq<Stmt>)
    requires ClosedBlock(program, {}) && forall x :: DeclaredIn(program)[x] <= 1
    ensures ScopedBlock(program, {}) && AssignsBlock(program, {})
  {
    ClosedBlockAssigns(program, {});
    OnceBlockScoped(program, {});
  }

  // ----- more fuel does not change a finished run -----

  lemma {:induction false} MoreFuel(s: Stmt, st: I.State, fuel: nat, more: nat)
    requires st.frames != [] && fuel <= more && I.Exec(s, st, fuel) != I.OutOfFuel
    ensures I.Exec(s, st, more) == I.Exec(s, st, fuel)
    decreases fuel, s, 0
  {
    match s
    case If(c, thn, els) =>
      if I.EvalCond(c, st.frames).Ok? {
        var t := I.EvalCond(c, st.frames).value;
        MoreFuelScope(map[], if t.b then thn else els, st.(notes := st.notes + t.notes), fuel, more);
      }
    case While(c, body) =>
      if I.EvalCond(c, st.frames).Ok? && I.EvalCond(c, st.frames).value.b {
        var st1 := st.(notes := st.notes + I.EvalCond(c, st.frames).value.notes);
        MoreFuelScope(map[], body, st1, fuel - 1, more - 1);
        if I.ExecScope(map[], body, st1, fuel - 1).Ok? {
          MoreFuel(s, I.ExecScope(map[], body, st1, fuel - 1).value, fuel - 1, more - 1);
        }
      }
    case For(x, it, body) =>
      if I.EvalIter(it, st.frames).Ok? {
        var bounds := I.EvalIter(it, st.frames).value;
        var st1 := st.(notes := st.notes + if bounds.Differ() then {I.IterationsDiffer} else {});
        MoreFuelFor(x, bounds.Values(), body, st1, fuel, more);
      }
    case _ =>
  }

  lemma {:induction false} MoreFuelBlock(b: seq<Stmt>, st: I.State, fuel: nat, more: nat)
    requires st.frames != [] && fuel <= more && I.ExecBlock(b, st, fuel) != I.OutOfFuel
    ensures I.ExecBlock(b, st, more) == I.ExecBlock(b, st, fuel)
    decreases fuel, b, 1
  {
    if b != [] {
      MoreFuel(b[0], st, fuel, more);
      if I.Exec(b[0], st, fuel).Ok? { MoreFuelBlock(b[1..], I.Exec(b[0], st, fuel).value, fuel, more); }
    }
  }

  lemma {:induction false} MoreFuelScope(top: I.Frame, b: seq<Stmt>, st: I.State, fuel: nat, more: nat)
    requires st.frames != [] && fuel <= more && I.ExecScope(top, b, st, fuel) != I.OutOfFuel
    ensures I.ExecScope(top, b, st, more) == I.ExecScope(top, b, st, fuel)
    decreases fuel, b, 2
  {
    MoreFuelBlock(b, st.(frames := st.frames + [top]), fuel, more);
  }

  lemma {:induction false} MoreFuelFor(x: Name, vs: seq<int64>, b: seq<Stmt>, st: I.State, fuel: nat, more: nat)
    requires st.frames != [] && fuel <= more && I.ExecFor(x, vs, b, st, fuel) != I.OutOfFuel
    ensures I.ExecFor(x, vs, b, st, more) == I.ExecFor(x, vs, b, st, fuel)
    decreases fuel, b, 3, |vs|
  {
    if vs != [] {
      MoreFuelScope(map[x := vs[0]], b, st, fuel, more);
      if I.ExecScope(map[x := vs[0]], b, st, fuel).Ok? {
        MoreFuelFor(x, vs[1..], b, I.ExecScope(map[x := vs[0]], b, st, fuel).value, fuel, more);
      }
    }
  }

  // ----- programs on which the back ends differ -----

  /** `for i in 0 { print(i) }`: the interpreter prints nothing, the compiled code prints 0. */
  lemma CountedLoopDiffers()
    ensures var program := [For("i", Upto(LitInt(0)), [Print(Ident("i"))])];
      I.RunMain(program, 0).Ok? && I.RunMain(program, 0).value.output == [] && Finishes(G.Main(program, 0), [0])
  {
    var s := For("i", Upto(LitInt(0)), [Print(Ident("i"))]);
    var program := [s];
    assert program[1..] == [];
    assert I.EvalIter(s.iter, I.Start.frames) == I.Ok(I.Count(0)) && I.Ascend(0, -1) == [];
    assert I.Exec(s, I.Start, 0) == I.Ok(I.Start.(notes := {} + {I.IterationsDiffer}));
    assert I.ExecBlock([], I.Exec(s, I.Start, 0).value, 0) == I.Exec(s, I.Start, 0);
    CountedLoopCompiled();
  }

  lemma CountedLoopCompiled()
    ensures Finishes(G.Main([For("i", Upto(LitInt(0)), [Print(Ident("i"))])], 0), [0])
  {
    var s := For("i", Upto(LitInt(0)), [Print(Ident("i"))]);
    assert ScopedBlock(s.body, {} + {"i"}) && ClosedBlock(s.body, {} + {"i"}) by { assert s.body[1..] == []; }
    assert DeclaredIn(s.body) == multiset{} by { assert s.body[1..] == []; }
    assert I.EvalIter(s.iter, I.Start.frames) == I.Ok(I.Count(0));
    assert I.Start.output + [0] == [0];
    OnePass(I.Start);
    OneLoop(s, 0, I.Start.(output := [0]));
  }

  /** A program of one loop, whose code runs over 0 up to and including its bound. */
  lemma OneLoop(s: Stmt, last: int64, end: I.State)
    requires s.For? && Closed(s, {}) && Once(Declared(s), {})
    requires I.EvalIter(s.iter, I.Start.frames).Ok? && last == I.EvalIter(s.iter, I.Start.frames).value.Last()
    requires Fits(last + 1) && I.ExecFor(s.name, I.Ascend(0, last), s.body, I.Start, 0) == I.Ok(end) && end.notes == {}
    ensures Finishes(G.Main([s], 0), end.output)
  {
    ClosedAssigns(s, {});
    OnceScoped(s, {});
    OneAccepted(s);
    OneStmtReady(s);
    StartMatches();
    var m := ForCompiled(G.Main([s], 0), 0, s, 0, map[], I.Start, 0, last, Ir.Start());
    assert Returned(G.Main([s], 0), m);
  }

  lemma OneAccepted(s: Stmt)
    requires Closed(s, {}) && Once(Declared(s), {})
    ensures Accepted(G.Main([s], 0))
  {
    assert [s][1..] == [] && DeclaredIn([s]) == Declared(s);
    AcceptedExactly([s], 0);
  }

  /** A program of one statement, before its first line. */
  lemma OneStmtReady(s: Stmt)
    requires Assigns(s, {})
    ensures var p, code := G.Main([s], 0), G.Stmt(s, 0, map[]).code;
      Ready(p, 0, code, map[], I.Start, Ir.Start()) && |code| < |p| && p[|code|] == RetVoid
  {
    var p, g := G.Main([s], 0), G.Stmt(s, 0, map[]);
    assert [s][1..] == [] && G.Block([s], 0, map[]).code == g.code;
    N.LabelsDistinct([s], 0);
    assert CodeAt(p, 0, p);
    SplitLast(p, 0, g.code, RetVoid);
    StartMatches();
  }

  /** One pass of the body with counter 0. */
  lemma OnePass(st: I.State)
    requires st.frames != []
    ensures I.ExecFor("i", I.Ascend(0, 0), [Print(Ident("i"))], st, 0) == I.Ok(st.(output := st.output + [0]))
  {
    var body := [Print(Ident("i"))];
    assert body[1..] == [];
    var top: I.Frame := map["i" := 0];
    var pushed := st.(frames := st.frames + [top]);
    var done := pushed.(output := st.output + [0]);
    assert I.Exec(body[0], pushed, 0) == I.Ok(done);
    assert I.ExecBlock(body[1..], done, 0) == I.Ok(done);
    assert I.ExecBlock(body, pushed, 0) == I.Ok(done);
    assert done.frames[..|done.frames| - 1] == st.frames;
    assert I.ExecScope(top, body, st, 0) == I.Ok(st.(output := st.output + [0]));
    assert I.Ascend(0, 0) == [0] && I.Ascend(0, 0)[1..] == [];
  }

  /** Two loops one after the other over the same name: the interpreter runs them, but the text
      defines the counter's slot and its comparison twice, so nothing is printed by a compiled program. */
  lemma SecondLoopRefused()
    ensures var s := For("i", Range(LitInt(0), LitInt(0)), [Print(Ident("i"))]);
      && ClosedBlock([s, s], {}) && I.RunMain([s, s], 0) == I.Ok(I.Start.(output := [0, 0]))
      && forall n: nat, out :: !Finishes(G.Main([s, s], n), out)
  {
    var s := For("i", Range(LitInt(0), LitInt(0)), [Print(Ident("i"))]);
    assert [s, s][1..] == [s] && [s][1..] == [];
    TwoLoopsRun(s);
    assert ClosedBlock(s.body, {} + {"i"}) by { assert s.body[1..] == []; }
    assert ClosedBlock([s, s], {});
    assert DeclaredIn([s, s])["i"] == 2 by { assert DeclaredIn(s.body) == multiset{} by { assert s.body[1..] == []; } }
    forall n: nat, out ensures !Finishes(G.Main([s, s], n), out) { TwiceRefused([s, s], "i", n, out); }
  }

  lemma TwiceRefused(program: seq<Stmt>, x: Name, n: nat, out: seq<int64>)
    requires ClosedBlock(program, {}) && DeclaredIn(program)[x] > 1
    ensures !Finishes(G.Main(program, n), out)
  {
    AcceptedExactly(program, n);
  }

  lemma TwoLoopsRun(s: Stmt)
    requires s == For("i", Range(LitInt(0), LitInt(0)), [Print(Ident("i"))])
    ensures I.RunMain([s, s], 0) == I.Ok(I.Start.(output := [0, 0]))
  {
    var st1, st2 := I.Start.(output := [0]), I.Start.(output := [0, 0]);
    assert [s, s][1..] == [s] && [s][1..] == [];
    LoopRuns(s, I.Start);
    assert I.Start.output + [0] == [0];
    LoopRuns(s, st1);
    assert [0] + [0] == [0, 0];
    assert I.ExecBlock([], st2, 0) == I.Ok(st2);
    assert I.ExecBlock([s], st1, 0) == I.Ok(st2);
  }

  lemma LoopRuns(s: Stmt, st: I.State)
    requires s == For("i", Range(LitInt(0), LitInt(0)), [Print(Ident("i"))]) && st.frames != [] && st.notes == {}
    ensures I.Exec(s, st, 0) == I.Ok(st.(output := st.output + [0]))
  {
    assert I.EvalIter(s.iter, st.frames) == I.Ok(I.FromTo(0, 0));
    assert st.notes + {} == {};
    OnePass(st);
  }

  /** 2^53 < 2^53 + 1 is false to the interpreter and true to the machine. */
  lemma RoundedComparison()
    ensures var a, b := 0x20_0000_0000_0000, 0x20_0000_0000_0001;
      a < b && CompareInt(Lt, a, b) && !I.CompareF64(Lt, a, b) && I.Conflated(Lt, a, b)
  {
    var a, b := 0x20_0000_0000_0000, 0x20_0000_0000_0001;
    assert Ulp(0x10_0000_0000_0000) == 1;
    assert Ulp(a) == 2 && Ulp(b) == 2;
    assert RoundNat(a) == a && RoundNat(b) == a;
  }

  /** Integers up to 2^53 in magnitude are compared exactly. */
  lemma SmallIntegersExact(op: CmpOp, a: int64, b: int64)
    requires -0x20_0000_0000_0000 < a < 0x20_0000_0000_0000 && -0x20_0000_0000_0000 < b < 0x20_0000_0000_0000
    ensures I.CompareF64(op, a, b) == CompareInt(op, a, b)
    ensures match op case Lt => I.CompareF64(op, a, b) <==> a < b case Gt => I.CompareF64(op, a, b) <==> a > b
      case Le => I.CompareF64(op, a, b) <==> a <= b case Ge => I.CompareF64(op, a, b) <==> a >= b
  {
    if a < 0 { RoundExact(-a); } else { RoundExact(a); }
    if b < 0 { RoundExact(-b); } else { RoundExact(b); }
  }
}
