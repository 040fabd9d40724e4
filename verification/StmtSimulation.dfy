/** The emitted statements do what the interpreter does, and so does a whole program. */
module StmtSimulation {
  import opened Wrappers
  import opened Int64
  import opened Ast
  import opened Ir
  import opened FrameFacts
  import opened Simulation
  import I = Interp
  import G = Codegen

  /** The whole correspondence between an interpreter state and a machine state. */
  predicate Match(st: I.State, m: Machine) {
    st.frames != [] && NoShadow(st.frames) && Agree(Flat(st.frames), m) && m.out == st.output
  }

  function ScopeOf(st: I.State): set<Name> { Flat(st.frames).Keys }

  /** From m the machine gets to m1, which corresponds to st; no numbered register below n changes. */
  ghost predicate Progress(p: Code, m: Machine, m1: Machine, st: I.State, n: nat) {
    Reaches(p, m, m1) && Match(st, m1) && Survive(m, m1, n)
  }

  // ----- memory -----

  lemma AgreeSubset(env: Env, sub: Env, m: Machine)
    requires Agree(env, m) && forall x :: x in sub ==> x in env && env[x] == sub[x]
    ensures Agree(sub, m)
  {
    forall x | x in sub ensures Holds(m, x, sub[x]) {
      assert Holds(m, x, env[x]);
    }
  }

  lemma AgreePc(env: Env, m: Machine, pc: nat)
    requires Agree(env, m)
    ensures Agree(env, m.(pc := pc))
  {
    forall x | x in env ensures Holds(m.(pc := pc), x, env[x]) {
      assert Holds(m, x, env[x]);
    }
    forall x, y | x in env && y in env && x != y ensures Apart(m.(pc := pc), x, y) {
      assert Apart(m, x, y);
    }
  }

  lemma Begin(p: Code, m: Machine, st: I.State, n: nat)
    requires Match(st, m)
    ensures Progress(p, m, m, st, n)
  {
    Here(p, m);
  }

  /** Then an expression or a condition. */
  lemma ThenExpr(p: Code, m: Machine, m1: Machine, m2: Machine, st: I.State, n: nat, k: nat)
    requires Progress(p, m, m1, st, n) && Reaches(p, m1, m2) && OnlyAbove(m1, m2, k) && n <= k
    ensures Progress(p, m, m2, st, n)
  {
    Then(p, m, m1, m2);
    AgreeOnlyAbove(Flat(st.frames), m1, m2, k);
    OnlyAboveSurvive(m1, m2, k, n);
    SurviveTrans(m, m1, m2, n, n);
  }

  /** Then a jump. */
  lemma ThenGoto(p: Code, m: Machine, m1: Machine, pc: nat, st: I.State, n: nat)
    requires Progress(p, m, m1, st, n) && Reaches(p, m1, m1.(pc := pc))
    ensures Progress(p, m, m1.(pc := pc), st, n)
  {
    Then(p, m, m1, m1.(pc := pc));
    AgreePc(Flat(st.frames), m1, pc);
    SetPtrSurvives(m1, m1.(pc := pc), "", 0, n);
    SurviveTrans(m, m1, m1.(pc := pc), n, n);
  }

  lemma ThenProgress(p: Code, m: Machine, m1: Machine, m2: Machine, st: I.State, st1: I.State, n: nat, k: nat)
    requires Progress(p, m, m1, st, n) && Progress(p, m1, m2, st1, k) && n <= k
    ensures Progress(p, m, m2, st1, n)
  {
    Then(p, m, m1, m2);
    SurviveTrans(m, m1, m2, n, k);
  }

  /** Writing the slot of a visible variable changes that variable only. */
  lemma StoreVar(p: Code, m: Machine, v: Operand, x: Name, n: int64, env: Env) returns (m1: Machine)
    requires At(p, m, Store(v, Ptr(x))) && Int(m.regs, v) == Some(n) && x in env && Agree(env, m)
    ensures Reaches(p, m, m1) && Agree(env[x := n], m1)
    ensures m1.pc == m.pc + 1 && m1.regs == m.regs && m1.out == m.out
  {
    assert Holds(m, x, env[x]);
    var a := m.regs[Ptr(x)].a;
    m1 := m.(pc := m.pc + 1, mem := m.mem[a := n]);
    DoStore(p, m, v, Ptr(x), n, a);
    var env1 := env[x := n];
    forall y | y in env1 ensures Holds(m1, y, env1[y]) {
      assert Holds(m, y, env[y]);
      if y != x { assert Apart(m, x, y); }
    }
    forall y, z | y in env1 && z in env1 && y != z ensures Apart(m1, y, z) {
      assert Apart(m, y, z);
    }
  }

  /** A new slot, then its first value: one more variable. */
  lemma NewVar(p: Code, m: Machine, v: Operand, x: Name, n: int64, env: Env) returns (m1: Machine)
    requires At(p, m, Alloca(Ptr(x))) && m.pc + 1 < |p| && p[m.pc + 1] == Store(v, Ptr(x))
    requires Int(m.regs, v) == Some(n) && (v.R? ==> 0 <= Num(v.r)) && x !in env && Agree(env, m)
    ensures Reaches(p, m, m1) && Agree(env[x := n], m1)
    ensures m1.pc == m.pc + 2 && m1.regs == m.regs[Ptr(x) := Addr(m.next)] && m1.out == m.out
  {
    var m2 := SetReg(m, Ptr(x), Addr(m.next)).(next := m.next + 1);
    DoAlloca(p, m, Ptr(x));
    m1 := m2.(pc := m2.pc + 1, mem := m2.mem[m.next := n]);
    DoStore(p, m2, v, Ptr(x), n, m.next);
    Then(p, m, m2, m1);
    var env1 := env[x := n];
    forall y | y in env1 ensures Holds(m1, y, env1[y]) {
      if y != x { assert Holds(m, y, env[y]); }
    }
    forall y, z | y in env1 && z in env1 && y != z ensures Apart(m1, y, z) {
      if y == x { assert Holds(m, z, env[z]); }
      else if z == x { assert Holds(m, y, env[y]); }
      else { assert Apart(m, y, z); }
    }
  }

  /** Registers named after a variable are not numbered. */
  lemma SetPtrSurvives(m: Machine, m1: Machine, x: Name, a: nat, n: int)
    requires m1.regs == m.regs[Ptr(x) := Addr(a)] || m1.regs == m.regs
    ensures Survive(m, m1, n)
  {
  }

  lemma SplitLast2(p: Code, off: nat, a: Code, x: Line, y: Line)
    requires CodeAt(p, off, a + [x, y])
    ensures CodeAt(p, off, a) && off + |a| + 1 < |p| && p[off + |a|] == x && p[off + |a| + 1] == y
  {
    assert a + [x, y] == a + [x] + [y];
    SplitLast(p, off, a + [x], y);
    SplitLast(p, off, a, x);
  }

  lemma Peel(p: Code, off: nat, a: Code, x: Line, y: Line, b: Code)
    requires CodeAt(p, off, a + [x, y] + b)
    ensures CodeAt(p, off, a) && off + |a| + 2 <= |p| && p[off + |a|] == x && p[off + |a| + 1] == y
    ensures CodeAt(p, off + |a| + 2, b)
  {
    Split(p, off, a + [x, y], b);
    SplitLast2(p, off, a, x, y);
  }

  /** Slots are only added, and always under their own name. */
  lemma {:induction false} StmtSlots(s: Stmt, n: nat, slots: G.Slots)
    requires SlotsOk(slots)
    ensures var r := G.Stmt(s, n, slots).slots; SlotsOk(r) && ScopeAfter(s, slots.Keys) <= r.Keys
    decreases s, 0
  {
    match s
    case If(c, thn, els) =>
      var gc := G.Cond(c, n + 3, slots);
      var gt := G.Block(thn, gc.n, slots);
      BlockSlots(thn, gc.n, slots);
      BlockSlots(els, gt.n, gt.slots);
    case While(c, body) =>
      BlockSlots(body, G.Cond(c, n + 3, slots).n, slots);
    case For(x, it, body) =>
      BlockSlots(body, G.Bound(it, n + 4, slots).n + 1, slots[x := Ptr(x)]);
    case _ =>
  }

  lemma {:induction false} BlockSlots(b: seq<Stmt>, n: nat, slots: G.Slots)
    requires SlotsOk(slots)
    ensures var r := G.Block(b, n, slots).slots; SlotsOk(r) && slots.Keys <= r.Keys
    decreases b, 1
  {
    if b != [] {
      StmtSlots(b[0], n, slots);
      var g := G.Stmt(b[0], n, slots);
      BlockSlots(b[1..], g.n, g.slots);
    }
  }

  // ----- straight-line statements -----

  lemma DeclCorrect(p: Code, off: nat, x: Name, e: Expr, n: nat, slots: G.Slots, st: I.State, consts: set<Name>, m: Machine) returns (m1: Machine)
    requires var g := G.Expr(e, n, slots); CodeAt(p, off, g.code + [Alloca(Ptr(x)), Store(g.v, Ptr(x))]) && m.pc == off
    requires Match(st, m) && Slotted(ScopeOf(st), slots) && x !in ScopeOf(st) && I.EvalExpr(e, st.frames).Ok?
    ensures Progress(p, m, m1, st.(consts := consts, frames := I.Declare(st.frames, x, I.EvalExpr(e, st.frames).value)), n)
    ensures m1.pc == off + |G.Expr(e, n, slots).code| + 2
  {
    var g := G.Expr(e, n, slots);
    var v := I.EvalExpr(e, st.frames).value;
    SplitLast2(p, off, g.code, Alloca(Ptr(x)), Store(g.v, Ptr(x)));
    var m2 := ExprCorrect(p, off, e, n, slots, st.frames, m);
    AgreeOnlyAbove(Flat(st.frames), m, m2, n);
    m1 := NewVar(p, m2, g.v, x, v, Flat(st.frames));
    Then(p, m, m2, m1);
    OnlyAboveSurvive(m, m2, n, n);
    SetPtrSurvives(m2, m1, x, m2.next, n);
    SurviveTrans(m, m2, m1, n, n);
    DeclareFlat(st.frames, x, v);
  }

  lemma AssignCorrect(p: Code, off: nat, x: Name, e: Expr, n: nat, slots: G.Slots, st: I.State, m: Machine) returns (m1: Machine)
    requires var g := G.Expr(e, n, slots); CodeAt(p, off, g.code + [Store(g.v, Ptr(x))]) && m.pc == off
    requires Match(st, m) && Slotted(ScopeOf(st), slots) && x in ScopeOf(st) && I.EvalExpr(e, st.frames).Ok?
    ensures Progress(p, m, m1, st.(frames := I.SetVar(st.frames, x, I.EvalExpr(e, st.frames).value)), n)
    ensures m1.pc == off + |G.Expr(e, n, slots).code| + 1
  {
    var g := G.Expr(e, n, slots);
    var v := I.EvalExpr(e, st.frames).value;
    SplitLast(p, off, g.code, Store(g.v, Ptr(x)));
    var m2 := ExprCorrect(p, off, e, n, slots, st.frames, m);
    AgreeOnlyAbove(Flat(st.frames), m, m2, n);
    m1 := StoreVar(p, m2, g.v, x, v, Flat(st.frames));
    Then(p, m, m2, m1);
    OnlyAboveSurvive(m, m2, n, n);
    SetPtrSurvives(m2, m1, x, 0, n);
    SurviveTrans(m, m2, m1, n, n);
    BoundFlat(st.frames, x);
    UpdateFlat(st.frames, x, v);
    UpdateNames(st.frames, x, v);
    SameNamesTidy(st.frames, I.Update(st.frames, x, v));
  }

  lemma PrintCorrect(p: Code, off: nat, e: Expr, n: nat, slots: G.Slots, st: I.State, m: Machine) returns (m1: Machine)
    requires var g := G.Expr(e, n, slots); CodeAt(p, off, g.code + [CallPrint(g.v)]) && m.pc == off
    requires Match(st, m) && Slotted(ScopeOf(st), slots) && I.EvalExpr(e, st.frames).Ok?
    ensures Progress(p, m, m1, st.(output := st.output + [I.EvalExpr(e, st.frames).value]), n)
    ensures m1.pc == off + |G.Expr(e, n, slots).code| + 1
  {
    var g := G.Expr(e, n, slots);
    var v := I.EvalExpr(e, st.frames).value;
    SplitLast(p, off, g.code, CallPrint(g.v));
    var m2 := ExprCorrect(p, off, e, n, slots, st.frames, m);
    AgreeOnlyAbove(Flat(st.frames), m, m2, n);
    AgreePc(Flat(st.frames), m2, m2.pc + 1);
    m1 := m2.(pc := m2.pc + 1, out := m2.out + [v]);
    AgreeOut(Flat(st.frames), m2.(pc := m2.pc + 1), m1.out);
    DoPrint(p, m2, g.v, v);
    Then(p, m, m2, m1);
    OnlyAboveSurvive(m, m2, n, n);
    SetPtrSurvives(m2, m1, "", 0, n);
    SurviveTrans(m, m2, m1, n, n);
  }

  lemma AgreeOut(env: Env, m: Machine, out: seq<int64>)
    requires Agree(env, m)
    ensures Agree(env, m.(out := out))
  {
    var m1 := m.(out := out);
    forall x | x in env ensures Holds(m1, x, env[x]) {
      assert Holds(m, x, env[x]);
    }
    forall x, y | x in env && y in env && x != y ensures Apart(m1, x, y) {
      assert Apart(m, x, y);
    }
  }

  // ----- blocks, branches and loops -----

  /** What every compound statement starts from. */
  ghost predicate Ready(p: Code, off: nat, c: Code, slots: G.Slots, st: I.State, m: Machine) {
    LabelsOnce(p) && CodeAt(p, off, c) && m.pc == off && Match(st, m) && Slotted(ScopeOf(st), slots)
  }

  lemma {:induction false} StmtCorrect(p: Code, off: nat, s: Stmt, n: nat, slots: G.Slots, st: I.State, fuel: nat, m: Machine)
    returns (m1: Machine)
    requires Ready(p, off, G.Stmt(s, n, slots).code, slots, st, m) && Scoped(s, ScopeOf(st))
    requires I.Exec(s, st, fuel).Ok? && I.Exec(s, st, fuel).value.notes == {}
    ensures Progress(p, m, m1, I.Exec(s, st, fuel).value, n) && m1.pc == off + |G.Stmt(s, n, slots).code|
    decreases fuel, s, 0, 0
  {
    if s.If? {
      m1 := IfStmt(p, off, s, n, slots, st, fuel, m);
    } else if s.While? {
      m1 := WhileStmt(p, off, s, n, slots, st, fuel, m);
    } else if s.For? {
      m1 := ForStmt(p, off, s, n, slots, st, fuel, m);
    } else {
      m1 := PlainStmt(p, off, s, n, slots, st, fuel, m);
    }
  }

  lemma PlainCode(s: Stmt, n: nat, slots: G.Slots, scope: set<Name>)
    requires Slotted(scope, slots) && Scoped(s, scope)
    ensures s.Decl? ==> var g := G.Expr(s.value, n, slots); G.Stmt(s, n, slots).code == g.code + [Alloca(Ptr(s.name)), Store(g.v, Ptr(s.name))]
    ensures s.Assign? ==> var g := G.Expr(s.value, n, slots); G.Stmt(s, n, slots).code == g.code + [Store(g.v, Ptr(s.name))]
    ensures s.Print? ==> var g := G.Expr(s.arg, n, slots); G.Stmt(s, n, slots).code == g.code + [CallPrint(g.v)]
  {}

  lemma PlainStmt(p: Code, off: nat, s: Stmt, n: nat, slots: G.Slots, st: I.State, fuel: nat, m: Machine) returns (m1: Machine)
    requires Ready(p, off, G.Stmt(s, n, slots).code, slots, st, m) && Scoped(s, ScopeOf(st)) && I.Exec(s, st, fuel).Ok?
    requires s.Decl? || s.Assign? || s.Print?
    ensures Progress(p, m, m1, I.Exec(s, st, fuel).value, n) && m1.pc == off + |G.Stmt(s, n, slots).code|
  {
    PlainCode(s, n, slots, ScopeOf(st));
    PlainRuns(s, st, fuel);
    match s
    case Decl(x, e, isConst) => m1 := DeclCorrect(p, off, x, e, n, slots, st, if isConst then st.consts + {x} else st.consts, m);
    case Assign(x, e) => m1 := AssignCorrect(p, off, x, e, n, slots, st, m);
    case Print(e) => m1 := PrintCorrect(p, off, e, n, slots, st, m);
  }

  lemma PlainRuns(s: Stmt, st: I.State, fuel: nat)
    requires st.frames != [] && I.Exec(s, st, fuel).Ok?
    ensures s.Decl? || s.Assign? ==> I.EvalExpr(s.value, st.frames).Ok?
    ensures s.Decl? ==> I.Exec(s, st, fuel).value.frames == I.Declare(st.frames, s.name, I.EvalExpr(s.value, st.frames).value)
    ensures s.Decl? ==> I.Exec(s, st, fuel).value.consts == if s.isConst then st.consts + {s.name} else st.consts
    ensures s.Decl? ==> I.Exec(s, st, fuel).value.output == st.output
    ensures s.Assign? ==> I.Exec(s, st, fuel).value == st.(frames := I.SetVar(st.frames, s.name, I.EvalExpr(s.value, st.frames).value))
    ensures s.Print? ==> I.EvalExpr(s.arg, st.frames).Ok?
    ensures s.Print? ==> I.Exec(s, st, fuel).value == st.(output := st.output + [I.EvalExpr(s.arg, st.frames).value])
  {}

  lemma {:induction false} IfStmt(p: Code, off: nat, s: Stmt, n: nat, slots: G.Slots, st: I.State, fuel: nat, m: Machine)
    returns (m1: Machine)
    requires s.If? && Ready(p, off, G.Stmt(s, n, slots).code, slots, st, m) && Scoped(s, ScopeOf(st))
    requires I.Exec(s, st, fuel).Ok? && I.Exec(s, st, fuel).value.notes == {}
    ensures Progress(p, m, m1, I.Exec(s, st, fuel).value, n) && m1.pc == off + |G.Stmt(s, n, slots).code|
    decreases fuel, if I.EvalCond(s.cond, st.frames).Ok? && I.EvalCond(s.cond, st.frames).value.b then s.thn else s.els, 3, 2
  {
    var gc := G.Cond(s.cond, n + 3, slots);
    var gt := G.Block(s.thn, gc.n, slots);
    var ge := G.Block(s.els, gt.n, gt.slots);
    G.IfUnfold(s.cond, s.thn, s.els, n, slots, gc, gt, ge);
    var h := IfPlaced(p, off, s.cond, s.thn, s.els, n, slots, ScopeOf(st), gc, gt, ge);
    IfUnfold(s.cond, s.thn, s.els, st, fuel);
    m1 := IfCorrect(h, st, fuel, m);
  }

  lemma {:induction false} WhileStmt(p: Code, off: nat, s: Stmt, n: nat, slots: G.Slots, st: I.State, fuel: nat, m: Machine)
    returns (m1: Machine)
    requires s.While? && Ready(p, off, G.Stmt(s, n, slots).code, slots, st, m) && Scoped(s, ScopeOf(st))
    requires I.Exec(s, st, fuel).Ok? && I.Exec(s, st, fuel).value.notes == {}
    ensures Progress(p, m, m1, I.Exec(s, st, fuel).value, n) && m1.pc == off + |G.Stmt(s, n, slots).code|
    decreases fuel, s.body, 4, 3
  {
    var gc := G.Cond(s.cond, n + 3, slots);
    var h := WhilePlaced(p, off, s.cond, s.body, n, slots, ScopeOf(st), gc, G.Block(s.body, gc.n, slots));
    assert s == While(s.cond, s.body);
    m1 := WhileRuns(h, st, fuel, I.Exec(s, st, fuel).value, m);
  }

  /** The jump to the head, and the loop. */
  lemma {:induction false} WhileRuns(h: WhileSite, st: I.State, fuel: nat, last: I.State, m: Machine) returns (m1: Machine)
    requires Match(st, m) && h.Ready(ScopeOf(st)) && m.pc == h.off && LoopEnds(h.c, h.body, st, fuel, last)
    ensures Progress(h.p, m, m1, last, h.n) && m1.pc == h.bodyEnd + 2
    decreases fuel, h.body, 4, 2
  {
    DoBr(h.p, m, h.n, h.off + 1);
    Begin(h.p, m, st, h.n);
    var m2 := m.(pc := h.off + 2);
    ThenGoto(h.p, m, m, h.off + 2, st, h.n);
    m1 := WhileCorrect(h, st, fuel, last, m2);
    ThenProgress(h.p, m, m2, m1, st, last, h.n, h.n);
  }

  lemma {:induction false} BlockCorrect(p: Code, off: nat, b: seq<Stmt>, n: nat, slots: G.Slots, st: I.State, fuel: nat, m: Machine)
    returns (m1: Machine)
    requires Ready(p, off, G.Block(b, n, slots).code, slots, st, m) && ScopedBlock(b, ScopeOf(st))
    requires I.ExecBlock(b, st, fuel).Ok? && I.ExecBlock(b, st, fuel).value.notes == {}
    ensures Progress(p, m, m1, I.ExecBlock(b, st, fuel).value, n) && m1.pc == off + |G.Block(b, n, slots).code|
    decreases fuel, b, 1, 0
  {
    if b == [] {
      m1 := m;
      Begin(p, m, st, n);
    } else {
      var g := G.Stmt(b[0], n, slots);
      var st1, st2 := I.Exec(b[0], st, fuel).value, I.ExecBlock(b, st, fuel).value;
      FirstPlaced(p, off, b, n, slots, g);
      FirstRuns(b, st, fuel);
      FirstScope(b, n, slots, g, st, st1, fuel);
      var m2 := StmtCorrect(p, off, b[0], n, slots, st, fuel, m);
      m1 := BlockCorrect(p, off + |g.code|, b[1..], g.n, g.slots, st1, fuel, m2);
      ThenProgress(p, m, m2, m1, st1, st2, n, g.n);
    }
  }

  lemma FirstPlaced(p: Code, off: nat, b: seq<Stmt>, n: nat, slots: G.Slots, g: G.GenS)
    requires b != [] && g == G.Stmt(b[0], n, slots) && CodeAt(p, off, G.Block(b, n, slots).code)
    ensures var rest := G.Block(b[1..], g.n, g.slots).code;
      CodeAt(p, off, g.code) && CodeAt(p, off + |g.code|, rest) && |G.Block(b, n, slots).code| == |g.code| + |rest|
  {
    Split(p, off, g.code, G.Block(b[1..], g.n, g.slots).code);
  }

  lemma FirstRuns(b: seq<Stmt>, st: I.State, fuel: nat)
    requires st.frames != [] && b != [] && I.ExecBlock(b, st, fuel).Ok? && I.ExecBlock(b, st, fuel).value.notes == {}
    ensures I.Exec(b[0], st, fuel).Ok? && I.Exec(b[0], st, fuel).value.notes == {}
    ensures I.ExecBlock(b[1..], I.Exec(b[0], st, fuel).value, fuel) == I.ExecBlock(b, st, fuel)
  {
    BlockNotes(b[1..], I.Exec(b[0], st, fuel).value, fuel);
  }

  lemma FirstScope(b: seq<Stmt>, n: nat, slots: G.Slots, g: G.GenS, st: I.State, st1: I.State, fuel: nat)
    requires st.frames != [] && NoShadow(st.frames) && b != [] && ScopedBlock(b, ScopeOf(st)) && Slotted(ScopeOf(st), slots)
    requires g == G.Stmt(b[0], n, slots) && I.Exec(b[0], st, fuel) == I.Ok(st1)
    ensures Scoped(b[0], ScopeOf(st)) && ScopedBlock(b[1..], ScopeOf(st1)) && Slotted(ScopeOf(st1), g.slots)
  {
    ExecKeeps(b[0], st, fuel, ScopeOf(st));
    StmtSlots(b[0], n, slots);
  }

  /** A block in a frame of its own. `all` is what is visible at its end, before the frame goes. */
  lemma {:induction false} ScopeCorrect(p: Code, off: nat, top: I.Frame, b: seq<Stmt>, n: nat, slots: G.Slots, st: I.State, fuel: nat, m: Machine)
    returns (m1: Machine, all: Env)
    requires LabelsOnce(p) && CodeAt(p, off, G.Block(b, n, slots).code) && m.pc == off
    requires Tidy(st.frames, ScopeOf(st)) && ScopeOf(st) !! top.Keys && Agree(Flat(st.frames) + top, m) && m.out == st.output
    requires Slotted(ScopeOf(st) + top.Keys, slots) && ScopedBlock(b, ScopeOf(st) + top.Keys)
    requires I.ExecScope(top, b, st, fuel).Ok? && I.ExecScope(top, b, st, fuel).value.notes == {}
    ensures Progress(p, m, m1, I.ExecScope(top, b, st, fuel).value, n) && m1.pc == off + |G.Block(b, n, slots).code|
    ensures Agree(all, m1) && top.Keys <= all.Keys && ScopeOf(I.ExecScope(top, b, st, fuel).value) == ScopeOf(st)
    ensures var env1 := Flat(I.ExecScope(top, b, st, fuel).value.frames); forall x :: x in env1 ==> x in all && all[x] == env1[x]
    decreases fuel, b, 2, 0
  {
    var pushed := st.(frames := st.frames + [top]);
    PushFlat(st.frames, top);
    assert ScopeOf(pushed) == ScopeOf(st) + top.Keys;
    m1 := BlockCorrect(p, off, b, n, slots, pushed, fuel, m);
    all := Flat(I.ExecBlock(b, pushed, fuel).value.frames);
    BlockKeeps(b, pushed, fuel, ScopeOf(pushed));
    SameNamesTidy(st.frames, I.ExecScope(top, b, st, fuel).value.frames);
    AgreeSubset(all, Flat(I.ExecScope(top, b, st, fuel).value.frames), m1);
  }

  // ----- code that is known by where it begins and ends -----

  function Seen(p: Code, at: nat, k: nat, slots: G.Slots, u: bool): bool { true }

  /** The code of a body stands between two lines, and its names are in order. */
  ghost predicate BodyReady(p: Code, at: nat, end: nat, b: seq<Stmt>, k: nat, slots: G.Slots, scope: set<Name>) {
    forall u {:trigger Seen(p, at, k, slots, u)} :: Seen(p, at, k, slots, u) ==> BodyPlaced(p, at, end, b, k, slots, scope)
  }

  predicate BodyPlaced(p: Code, at: nat, end: nat, b: seq<Stmt>, k: nat, slots: G.Slots, scope: set<Name>) {
    var g := G.Block(b, k, slots);
    CodeAt(p, at, g.code) && end == at + |g.code| && Slotted(scope, slots) && ScopedBlock(b, scope)
  }

  lemma BodyMeans(p: Code, at: nat, end: nat, b: seq<Stmt>, k: nat, slots: G.Slots, scope: set<Name>)
    ensures BodyReady(p, at, end, b, k, slots, scope) <==> BodyPlaced(p, at, end, b, k, slots, scope)
  {
    assert Seen(p, at, k, slots, true);
  }

  lemma BodyStands(p: Code, at: nat, b: seq<Stmt>, k: nat, slots: G.Slots, g: G.GenS, scope: set<Name>)
    requires g == G.Block(b, k, slots) && CodeAt(p, at, g.code) && Slotted(scope, slots) && ScopedBlock(b, scope)
    ensures BodyReady(p, at, at + |g.code|, b, k, slots, scope)
  {
    BodyMeans(p, at, at + |g.code|, b, k, slots, scope);
  }

  /** The code of a condition. */
  ghost predicate CondReady(p: Code, at: nat, end: nat, c: Cond, k: nat, slots: G.Slots, v: Operand, scope: set<Name>) {
    forall u {:trigger Seen(p, at, k, slots, u)} :: Seen(p, at, k, slots, u) ==> CondPlaced(p, at, end, c, k, slots, v, scope)
  }

  predicate CondPlaced(p: Code, at: nat, end: nat, c: Cond, k: nat, slots: G.Slots, v: Operand, scope: set<Name>) {
    var g := G.Cond(c, k, slots);
    CodeAt(p, at, g.code) && end == at + |g.code| && v == g.v && Slotted(scope, slots)
  }

  lemma CondMeans(p: Code, at: nat, end: nat, c: Cond, k: nat, slots: G.Slots, v: Operand, scope: set<Name>)
    ensures CondReady(p, at, end, c, k, slots, v, scope) <==> CondPlaced(p, at, end, c, k, slots, v, scope)
  {
    assert Seen(p, at, k, slots, true);
  }

  lemma CondStands(p: Code, at: nat, c: Cond, k: nat, slots: G.Slots, g: G.GenE, scope: set<Name>)
    requires g == G.Cond(c, k, slots) && CodeAt(p, at, g.code) && Slotted(scope, slots)
    ensures CondReady(p, at, at + |g.code|, c, k, slots, g.v, scope)
  {
    CondMeans(p, at, at + |g.code|, c, k, slots, g.v, scope);
  }

  /** A condition without notes. */
  lemma CondRuns(p: Code, at: nat, end: nat, c: Cond, n: nat, k: nat, slots: G.Slots, v: Operand, st: I.State, m: Machine) returns (m1: Machine)
    requires CondReady(p, at, end, c, k, slots, v, ScopeOf(st)) && m.pc == at && Match(st, m) && n <= k
    requires I.EvalCond(c, st.frames).Ok? && I.EvalCond(c, st.frames).value.notes == {}
    ensures Progress(p, m, m1, st, n) && m1.pc == end && Flag(m1.regs, v) == Some(I.EvalCond(c, st.frames).value.b)
  {
    CondMeans(p, at, end, c, k, slots, v, ScopeOf(st));
    m1 := CondCorrect(p, at, c, k, slots, st.frames, m);
    Begin(p, m, st, n);
    ThenExpr(p, m, m, m1, st, n, k);
  }

  lemma WeakerProgress(p: Code, m: Machine, m1: Machine, st: I.State, n: nat, k: nat)
    requires Progress(p, m, m1, st, k) && n <= k
    ensures Progress(p, m, m1, st, n)
  {
    SetPtrSurvives(m, m, "", 0, n);
    SurviveTrans(m, m, m1, n, k);
  }

  lemma NoBindings(st: I.State)
    ensures var none: I.Frame := map[]; Flat(st.frames) + none == Flat(st.frames) && ScopeOf(st) + none.Keys == ScopeOf(st)
  {
  }

  /** A body without bindings of its own, whose code takes its numbers from k on. */
  lemma {:induction false} BodyCorrect(p: Code, at: nat, end: nat, b: seq<Stmt>, n: nat, k: nat, slots: G.Slots, st: I.State, fuel: nat, m: Machine)
    returns (m1: Machine)
    requires LabelsOnce(p) && BodyReady(p, at, end, b, k, slots, ScopeOf(st)) && m.pc == at && n <= k && Match(st, m)
    requires I.ExecScope(map[], b, st, fuel).Ok? && I.ExecScope(map[], b, st, fuel).value.notes == {}
    ensures Progress(p, m, m1, I.ExecScope(map[], b, st, fuel).value, n) && m1.pc == end
    ensures ScopeOf(I.ExecScope(map[], b, st, fuel).value) == ScopeOf(st)
    decreases fuel, b, 2, 1
  {
    NoBindings(st);
    BodyMeans(p, at, end, b, k, slots, ScopeOf(st));
    var all;
    m1, all := ScopeCorrect(p, at, map[], b, k, slots, st, fuel, m);
    WeakerProgress(p, m, m1, I.ExecScope(map[], b, st, fuel).value, n, k);
  }

  // ----- if -----

  /** The statement, where its parts begin and end, and the numbers and slots that they start with. */
  datatype IfSite = IfSite(p: Code, off: nat, c: Cond, thn: seq<Stmt>, els: seq<Stmt>, n: nat, v: Operand,
                           test: nat, thenEnd: nat, elseEnd: nat, k: nat, j: nat, slots: G.Slots, after: G.Slots) {
    ghost predicate Ready(scope: set<Name>) {
      && CondReady(p, off, test, c, n + 3, slots, v, scope) && BodyReady(p, test + 2, thenEnd, thn, k, slots, scope)
      && BodyReady(p, thenEnd + 2, elseEnd, els, j, after, scope) && Placed()
    }

    ghost predicate Placed() {
      && LabelsOnce(p) && n <= k <= j && test + 1 < |p| && thenEnd + 1 < |p| && elseEnd + 1 < |p|
      && p[test] == CondBr(v, n, n + 1) && p[test + 1] == LabelLine(n)
      && p[thenEnd] == Br(n + 2) && p[thenEnd + 1] == LabelLine(n + 1)
      && p[elseEnd] == Br(n + 2) && p[elseEnd + 1] == LabelLine(n + 2)
    }
  }

  /** The code of the whole statement from that of its parts. */
  function IfText(gc: G.GenE, gt: G.GenS, ge: G.GenS, n: nat): Code {
    gc.code + [CondBr(gc.v, n, n + 1), LabelLine(n)] + gt.code + [Br(n + 2), LabelLine(n + 1)] + ge.code + [Br(n + 2), LabelLine(n + 2)]
  }

  lemma IfPlaced(p: Code, off: nat, c: Cond, thn: seq<Stmt>, els: seq<Stmt>, n: nat, slots: G.Slots, scope: set<Name>,
                 gc: G.GenE, gt: G.GenS, ge: G.GenS) returns (h: IfSite)
    requires LabelsOnce(p) && Slotted(scope, slots) && ScopedBlock(thn, scope) && ScopedBlock(els, scope)
    requires gc == G.Cond(c, n + 3, slots) && gt == G.Block(thn, gc.n, slots) && ge == G.Block(els, gt.n, gt.slots)
    requires CodeAt(p, off, IfText(gc, gt, ge, n))
    ensures h.Ready(scope) && h.elseEnd + 2 == off + |IfText(gc, gt, ge, n)|
    ensures h.p == p && h.off == off && h.c == c && h.thn == thn && h.els == els && h.n == n
  {
    h := IfFound(p, off, c, thn, els, n, slots, gc, gt, ge);
    PartsStand(h, gc, gt, ge, scope);
  }

  lemma PartsStand(h: IfSite, gc: G.GenE, gt: G.GenS, ge: G.GenS, scope: set<Name>)
    requires Slotted(scope, h.slots) && ScopedBlock(h.thn, scope) && ScopedBlock(h.els, scope) && h.Placed()
    requires gc == G.Cond(h.c, h.n + 3, h.slots) && gt == G.Block(h.thn, h.k, h.slots) && ge == G.Block(h.els, h.j, h.after)
    requires h.v == gc.v && h.after == gt.slots && CodeAt(h.p, h.off, gc.code) && h.test == h.off + |gc.code|
    requires CodeAt(h.p, h.test + 2, gt.code) && h.thenEnd == h.test + 2 + |gt.code|
    requires CodeAt(h.p, h.thenEnd + 2, ge.code) && h.elseEnd == h.thenEnd + 2 + |ge.code|
    ensures h.Ready(scope)
  {
    CondStands(h.p, h.off, h.c, h.n + 3, h.slots, gc, scope);
    BranchesStand(h, gt, ge, h.slots, scope);
  }

  lemma BranchesStand(h: IfSite, gt: G.GenS, ge: G.GenS, slots: G.Slots, scope: set<Name>)
    requires Slotted(scope, slots) && ScopedBlock(h.thn, scope) && ScopedBlock(h.els, scope)
    requires gt == G.Block(h.thn, h.k, slots) && ge == G.Block(h.els, h.j, h.after) && h.after == gt.slots
    requires CodeAt(h.p, h.test + 2, gt.code) && CodeAt(h.p, h.thenEnd + 2, ge.code)
    ensures BodyReady(h.p, h.test + 2, h.test + 2 + |gt.code|, h.thn, h.k, slots, scope)
    ensures BodyReady(h.p, h.thenEnd + 2, h.thenEnd + 2 + |ge.code|, h.els, h.j, h.after, scope)
  {
    BodyStands(h.p, h.test + 2, h.thn, h.k, slots, gt, scope);
    AfterSlotted(h.thn, h.k, slots, gt, scope);
    BodyStands(h.p, h.thenEnd + 2, h.els, h.j, h.after, ge, scope);
  }

  lemma AfterSlotted(b: seq<Stmt>, k: nat, slots: G.Slots, g: G.GenS, scope: set<Name>)
    requires g == G.Block(b, k, slots) && Slotted(scope, slots)
    ensures Slotted(scope, g.slots)
  {
    BlockSlots(b, k, slots);
  }

  lemma IfFound(p: Code, off: nat, c: Cond, thn: seq<Stmt>, els: seq<Stmt>, n: nat, slots: G.Slots, gc: G.GenE, gt: G.GenS, ge: G.GenS) returns (h: IfSite)
    requires LabelsOnce(p) && n <= gc.n <= gt.n
    requires CodeAt(p, off, IfText(gc, gt, ge, n))
    ensures h == IfSite(p, off, c, thn, els, n, gc.v, off + |gc.code|, h.thenEnd, h.elseEnd, gc.n, gt.n, slots, gt.slots)
    ensures h.thenEnd == h.test + 2 + |gt.code| && h.elseEnd == h.thenEnd + 2 + |ge.code| && h.Placed()
    ensures CodeAt(p, off, gc.code) && CodeAt(p, h.test + 2, gt.code) && CodeAt(p, h.thenEnd + 2, ge.code)
    ensures off + |IfText(gc, gt, ge, n)| == h.elseEnd + 2
  {
    IfLines(p, off, gc.code, CondBr(gc.v, n, n + 1), n, gt.code, ge.code);
    var test := off + |gc.code|;
    var thenEnd := test + 2 + |gt.code|;
    h := IfSite(p, off, c, thn, els, n, gc.v, test, thenEnd, thenEnd + 2 + |ge.code|, gc.n, gt.n, slots, gt.slots);
  }

  lemma IfLines(p: Code, off: nat, c: Code, br: Line, n: nat, thn: Code, els: Code)
    requires CodeAt(p, off, c + [br, LabelLine(n)] + thn + [Br(n + 2), LabelLine(n + 1)] + els + [Br(n + 2), LabelLine(n + 2)])
    ensures var test := off + |c|;
      var thenEnd := test + 2 + |thn|;
      var elseEnd := thenEnd + 2 + |els|;
      && CodeAt(p, off, c) && CodeAt(p, test + 2, thn) && CodeAt(p, thenEnd + 2, els) && elseEnd + 1 < |p|
      && p[test] == br && p[test + 1] == LabelLine(n)
      && p[thenEnd] == Br(n + 2) && p[thenEnd + 1] == LabelLine(n + 1)
      && p[elseEnd] == Br(n + 2) && p[elseEnd + 1] == LabelLine(n + 2)
      && off + |c + [br, LabelLine(n)] + thn + [Br(n + 2), LabelLine(n + 1)] + els + [Br(n + 2), LabelLine(n + 2)]| == elseEnd + 2
  {
    var a := c + [br, LabelLine(n)] + thn;
    SplitLast2(p, off, a + [Br(n + 2), LabelLine(n + 1)] + els, Br(n + 2), LabelLine(n + 2));
    Peel(p, off, a, Br(n + 2), LabelLine(n + 1), els);
    Peel(p, off, c, br, LabelLine(n), thn);
  }

  lemma IfUnfold(c: Cond, thn: seq<Stmt>, els: seq<Stmt>, st: I.State, fuel: nat)
    requires st.frames != [] && I.Exec(If(c, thn, els), st, fuel).Ok? && I.Exec(If(c, thn, els), st, fuel).value.notes == {}
    ensures I.EvalCond(c, st.frames).Ok? && I.EvalCond(c, st.frames).value.notes == {}
    ensures I.Exec(If(c, thn, els), st, fuel) == I.ExecScope(map[], if I.EvalCond(c, st.frames).value.b then thn else els, st, fuel)
  {
    var t := I.EvalCond(c, st.frames).value;
    ScopeNotes(map[], if t.b then thn else els, st.(notes := st.notes + t.notes), fuel);
    assert st.(notes := st.notes + t.notes) == st;
  }

  lemma {:induction false} IfCorrect(h: IfSite, st: I.State, fuel: nat, m: Machine) returns (m1: Machine)
    requires h.Ready(ScopeOf(st)) && m.pc == h.off && Match(st, m)
    requires I.EvalCond(h.c, st.frames).Ok? && I.EvalCond(h.c, st.frames).value.notes == {}
    requires var r := I.ExecScope(map[], if I.EvalCond(h.c, st.frames).value.b then h.thn else h.els, st, fuel); r.Ok? && r.value.notes == {}
    ensures var b := I.EvalCond(h.c, st.frames).value.b;
      Progress(h.p, m, m1, I.ExecScope(map[], if b then h.thn else h.els, st, fuel).value, h.n) && m1.pc == h.elseEnd + 2
    decreases fuel, if I.EvalCond(h.c, st.frames).value.b then h.thn else h.els, 3, 1
  {
    var b := I.EvalCond(h.c, st.frames).value.b;
    var m2 := CondRuns(h.p, h.off, h.test, h.c, h.n, h.n + 3, h.slots, h.v, st, m);
    DoCondBr(h.p, m2, h.v, h.n, h.n + 1, b, if b then h.test + 1 else h.thenEnd + 1);
    var m3 := m2.(pc := if b then h.test + 2 else h.thenEnd + 2);
    ThenGoto(h.p, m, m2, m3.pc, st, h.n);
    m1 := BranchCorrect(h, b, st, fuel, m3);
    ThenProgress(h.p, m, m3, m1, st, I.ExecScope(map[], if b then h.thn else h.els, st, fuel).value, h.n, h.n);
  }

  lemma {:induction false} BranchCorrect(h: IfSite, b: bool, st: I.State, fuel: nat, m: Machine) returns (m1: Machine)
    requires h.Ready(ScopeOf(st)) && m.pc == (if b then h.test + 2 else h.thenEnd + 2) && Match(st, m)
    requires var r := I.ExecScope(map[], if b then h.thn else h.els, st, fuel); r.Ok? && r.value.notes == {}
    ensures Progress(h.p, m, m1, I.ExecScope(map[], if b then h.thn else h.els, st, fuel).value, h.n) && m1.pc == h.elseEnd + 2
    decreases fuel, if b then h.thn else h.els, 3, 0
  {
    var m2;
    if b {
      m2 := BodyCorrect(h.p, h.test + 2, h.thenEnd, h.thn, h.n, h.k, h.slots, st, fuel, m);
    } else {
      m2 := BodyCorrect(h.p, h.thenEnd + 2, h.elseEnd, h.els, h.n, h.j, h.after, st, fuel, m);
    }
    DoBr(h.p, m2, h.n + 2, h.elseEnd + 1);
    m1 := m2.(pc := h.elseEnd + 2);
    ThenGoto(h.p, m, m2, h.elseEnd + 2, I.ExecScope(map[], if b then h.thn else h.els, st, fuel).value, h.n);
  }

  // ----- while -----

  datatype WhileSite = WhileSite(p: Code, off: nat, c: Cond, body: seq<Stmt>, n: nat, v: Operand, test: nat, bodyEnd: nat, k: nat, slots: G.Slots) {
    ghost predicate Ready(scope: set<Name>) {
      && CondReady(p, off + 2, test, c, n + 3, slots, v, scope) && BodyReady(p, test + 2, bodyEnd, body, k, slots, scope) && Placed()
    }

    ghost predicate Placed() {
      && LabelsOnce(p) && n <= k && off + 1 < |p| && test + 1 < |p| && bodyEnd + 1 < |p|
      && p[off] == Br(n) && p[off + 1] == LabelLine(n)
      && p[test] == CondBr(v, n + 1, n + 2) && p[test + 1] == LabelLine(n + 1)
      && p[bodyEnd] == Br(n) && p[bodyEnd + 1] == LabelLine(n + 2)
    }
  }

  lemma WhilePlaced(p: Code, off: nat, c: Cond, body: seq<Stmt>, n: nat, slots: G.Slots, scope: set<Name>, gc: G.GenE, gb: G.GenS) returns (h: WhileSite)
    requires LabelsOnce(p) && Slotted(scope, slots) && ScopedBlock(body, scope)
    requires gc == G.Cond(c, n + 3, slots) && gb == G.Block(body, gc.n, slots) && CodeAt(p, off, G.WhileStmt(c, body, n, slots).code)
    ensures h.Ready(scope) && h.bodyEnd + 2 == off + |G.WhileStmt(c, body, n, slots).code|
    ensures h.p == p && h.off == off && h.c == c && h.body == body && h.n == n
  {
    G.WhileUnfold(c, body, n, slots, gc, gb);
    h := WhileFound(p, off, c, body, n, slots, gc, gb);
    CondStands(p, off + 2, c, n + 3, slots, gc, scope);
    BodyStands(p, h.test + 2, body, gc.n, slots, gb, scope);
  }

  lemma WhileFound(p: Code, off: nat, c: Cond, body: seq<Stmt>, n: nat, slots: G.Slots, gc: G.GenE, gb: G.GenS) returns (h: WhileSite)
    requires LabelsOnce(p) && n <= gc.n
    requires CodeAt(p, off, [Br(n), LabelLine(n)] + gc.code + [CondBr(gc.v, n + 1, n + 2), LabelLine(n + 1)] + gb.code + [Br(n), LabelLine(n + 2)])
    ensures h == WhileSite(p, off, c, body, n, gc.v, off + 2 + |gc.code|, h.bodyEnd, gc.n, slots)
    ensures h.bodyEnd == h.test + 2 + |gb.code| && h.Placed() && CodeAt(p, off + 2, gc.code) && CodeAt(p, h.test + 2, gb.code)
    ensures off + |[Br(n), LabelLine(n)] + gc.code + [CondBr(gc.v, n + 1, n + 2), LabelLine(n + 1)] + gb.code + [Br(n), LabelLine(n + 2)]| == h.bodyEnd + 2
  {
    WhileLines(p, off, gc.code, CondBr(gc.v, n + 1, n + 2), n, gb.code);
    h := WhileSite(p, off, c, body, n, gc.v, off + 2 + |gc.code|, off + 2 + |gc.code| + 2 + |gb.code|, gc.n, slots);
  }

  lemma WhileLines(p: Code, off: nat, c: Code, br: Line, n: nat, body: Code)
    requires CodeAt(p, off, [Br(n), LabelLine(n)] + c + [br, LabelLine(n + 1)] + body + [Br(n), LabelLine(n + 2)])
    ensures var test := off + 2 + |c|;
      var bodyEnd := test + 2 + |body|;
      && CodeAt(p, off + 2, c) && CodeAt(p, test + 2, body) && bodyEnd + 1 < |p|
      && p[off] == Br(n) && p[off + 1] == LabelLine(n) && p[test] == br && p[test + 1] == LabelLine(n + 1)
      && p[bodyEnd] == Br(n) && p[bodyEnd + 1] == LabelLine(n + 2)
      && off + |[Br(n), LabelLine(n)] + c + [br, LabelLine(n + 1)] + body + [Br(n), LabelLine(n + 2)]| == bodyEnd + 2
  {
    var a := [Br(n), LabelLine(n)] + c;
    SplitLast2(p, off, a + [br, LabelLine(n + 1)] + body, Br(n), LabelLine(n + 2));
    Peel(p, off, a, br, LabelLine(n + 1), body);
    assert [] + [Br(n), LabelLine(n)] == [Br(n), LabelLine(n)];
    Peel(p, off, [], Br(n), LabelLine(n), c);
  }

  function Going(st: I.State, fuel: nat, u: bool): bool { true }

  /** The interpreter's loop ends in a state, and notes nothing on the way. */
  ghost predicate LoopEnds(c: Cond, body: seq<Stmt>, st: I.State, fuel: nat, last: I.State)
    requires st.frames != []
  {
    forall u {:trigger Going(st, fuel, u)} :: Going(st, fuel, u) ==> I.Exec(While(c, body), st, fuel) == I.Ok(last) && last.notes == {}
  }

  /** One round for each unit of fuel, from the line after the head label. */
  lemma {:induction false} WhileCorrect(h: WhileSite, st: I.State, fuel: nat, last: I.State, m: Machine) returns (m1: Machine)
    requires Match(st, m) && h.Ready(ScopeOf(st)) && m.pc == h.off + 2 && LoopEnds(h.c, h.body, st, fuel, last)
    ensures Progress(h.p, m, m1, last, h.n) && m1.pc == h.bodyEnd + 2
    decreases fuel, h.body, 4, 1
  {
    WhileUnfold(h.c, h.body, st, fuel, last);
    var m3 := WhileDecides(h, st, m);
    if I.EvalCond(h.c, st.frames).value.b {
      var st1 := I.ExecScope(map[], h.body, st, fuel - 1).value;
      var m4 := RoundCorrect(h, st, fuel - 1, m3);
      m1 := WhileCorrect(h, st1, fuel - 1, last, m4);
      ThreeParts(h.p, m, m3, m4, m1, st, st1, last, h.n);
    } else {
      m1 := m3;
    }
  }

  lemma ThreeParts(p: Code, m: Machine, m1: Machine, m2: Machine, m3: Machine, st: I.State, st1: I.State, st2: I.State, n: nat)
    requires Progress(p, m, m1, st, n) && Progress(p, m1, m2, st1, n) && Progress(p, m2, m3, st2, n)
    ensures Progress(p, m, m3, st2, n)
  {
    ThenProgress(p, m, m1, m2, st, st1, n, n);
    ThenProgress(p, m, m2, m3, st1, st2, n, n);
  }

  /** The condition, and the branch into the body or out of the loop. */
  lemma WhileDecides(h: WhileSite, st: I.State, m: Machine) returns (m1: Machine)
    requires Match(st, m) && h.Ready(ScopeOf(st)) && m.pc == h.off + 2
    requires I.EvalCond(h.c, st.frames).Ok? && I.EvalCond(h.c, st.frames).value.notes == {}
    ensures Progress(h.p, m, m1, st, h.n)
    ensures m1.pc == if I.EvalCond(h.c, st.frames).value.b then h.test + 2 else h.bodyEnd + 2
  {
    var b := I.EvalCond(h.c, st.frames).value.b;
    var m2 := CondRuns(h.p, h.off + 2, h.test, h.c, h.n, h.n + 3, h.slots, h.v, st, m);
    DoCondBr(h.p, m2, h.v, h.n + 1, h.n + 2, b, if b then h.test + 1 else h.bodyEnd + 1);
    m1 := m2.(pc := if b then h.test + 2 else h.bodyEnd + 2);
    ThenGoto(h.p, m, m2, m1.pc, st, h.n);
  }

  /** One round of the interpreter, in a run without notes. */
  lemma WhileUnfold(c: Cond, body: seq<Stmt>, st: I.State, fuel: nat, last: I.State)
    requires st.frames != [] && LoopEnds(c, body, st, fuel, last)
    ensures I.EvalCond(c, st.frames).Ok? && I.EvalCond(c, st.frames).value.notes == {}
    ensures !I.EvalCond(c, st.frames).value.b ==> last == st
    ensures I.EvalCond(c, st.frames).value.b ==>
      && fuel > 0 && I.ExecScope(map[], body, st, fuel - 1).Ok? && I.ExecScope(map[], body, st, fuel - 1).value.notes == {}
      && LoopEnds(c, body, I.ExecScope(map[], body, st, fuel - 1).value, fuel - 1, last)
  {
    assert Going(st, fuel, true);
    var t := I.EvalCond(c, st.frames).value;
    var st1 := st.(notes := st.notes + t.notes);
    if t.b {
      ScopeNotes(map[], body, st1, fuel - 1);
      ExecNotes(While(c, body), I.ExecScope(map[], body, st1, fuel - 1).value, fuel - 1);
    }
    assert st1 == st;
  }

  /** The body of a `while`, and the jump back. */
  lemma {:induction false} RoundCorrect(h: WhileSite, st: I.State, fuel: nat, m: Machine) returns (m1: Machine)
    requires Match(st, m) && h.Ready(ScopeOf(st)) && m.pc == h.test + 2
    requires I.ExecScope(map[], h.body, st, fuel).Ok? && I.ExecScope(map[], h.body, st, fuel).value.notes == {}
    ensures Progress(h.p, m, m1, I.ExecScope(map[], h.body, st, fuel).value, h.n) && m1.pc == h.off + 2
    ensures ScopeOf(I.ExecScope(map[], h.body, st, fuel).value) == ScopeOf(st)
    decreases fuel, h.body, 4, 0
  {
    var m2 := BodyCorrect(h.p, h.test + 2, h.bodyEnd, h.body, h.n, h.k, h.slots, st, fuel, m);
    DoBr(h.p, m2, h.n, h.off + 1);
    m1 := m2.(pc := h.off + 2);
    ThenGoto(h.p, m, m2, h.off + 2, I.ExecScope(map[], h.body, st, fuel).value, h.n);
  }

  // ----- for -----

  /** The lines of a loop around its body: its numbers from n and k on, the bound, the first line of
      the head, the line behind the body, and the last number. */
  datatype ForLoop = ForLoop(p: Code, x: Name, n: nat, k: nat, bound: Operand, head: nat, bodyEnd: nat, next: nat) {
    function V(): Reg { Val(x, k) }

    ghost predicate Placed() {
      && CodeAt(p, head, G.ForHead(x, n, V(), bound)) && CodeAt(p, bodyEnd, G.ForTail(x, n, V(), next))
      && LabelsOnce(p) && n <= k < next && Ranged(bound, n, k)
    }

    ghost predicate Body(body: seq<Stmt>, slots: G.Slots, scope: set<Name>) {
      BodyReady(p, head + 10, bodyEnd, body, k + 1, slots[x := Ptr(x)], scope + {x})
    }
  }

  /** The code of the whole statement from that of its parts. */
  function ForText(x: Name, n: nat, gi: G.GenE, gb: G.GenS): Code {
    var v := Val(x, gi.n);
    gi.code + G.ForHead(x, n, v, gi.v) + gb.code + G.ForTail(x, n, v, gb.n)
  }

  lemma ForPlaced(p: Code, off: nat, x: Name, body: seq<Stmt>, n: nat, slots: G.Slots, scope: set<Name>, gi: G.GenE, gb: G.GenS)
    returns (l: ForLoop)
    requires Slotted(scope, slots) && ScopedBlock(body, scope + {x}) && LabelsOnce(p) && CodeAt(p, off, ForText(x, n, gi, gb))
    requires n <= gi.n && gb == G.Block(body, gi.n + 1, slots[x := Ptr(x)]) && Ranged(gi.v, n, gi.n)
    ensures l == ForLoop(p, x, n, gi.n, gi.v, off + |gi.code|, off + |gi.code| + 10 + |gb.code|, gb.n)
    ensures l.Placed() && l.Body(body, slots, scope)
    ensures l.bodyEnd + 4 == off + |ForText(x, n, gi, gb)|
  {
    l := ForFound(p, off, x, n, gi, gb);
    InnerSlotted(x, slots, scope);
    BodyStands(p, l.head + 10, body, l.k + 1, slots[x := Ptr(x)], gb, scope + {x});
  }

  lemma InnerSlotted(x: Name, slots: G.Slots, scope: set<Name>)
    requires Slotted(scope, slots)
    ensures Slotted(scope + {x}, slots[x := Ptr(x)])
  {}

  lemma ForFound(p: Code, off: nat, x: Name, n: nat, gi: G.GenE, gb: G.GenS) returns (l: ForLoop)
    requires LabelsOnce(p) && n <= gi.n < gb.n && Ranged(gi.v, n, gi.n)
    requires CodeAt(p, off, ForText(x, n, gi, gb))
    ensures l == ForLoop(p, x, n, gi.n, gi.v, off + |gi.code|, off + |gi.code| + 10 + |gb.code|, gb.n)
    ensures l.Placed() && CodeAt(p, l.head + 10, gb.code)
    ensures l.bodyEnd + 4 == off + |ForText(x, n, gi, gb)|
  {
    var v := Val(x, gi.n);
    l := ForLoop(p, x, n, gi.n, gi.v, off + |gi.code|, off + |gi.code| + 10 + |gb.code|, gb.n);
    ForLines(p, off, gi.code, G.ForHead(x, n, v, gi.v), gb.code, G.ForTail(x, n, v, gb.n));
  }

  lemma ForLines(p: Code, off: nat, a: Code, head: Code, body: Code, tail: Code)
    requires CodeAt(p, off, a + head + body + tail)
    ensures CodeAt(p, off, a) && CodeAt(p, off + |a|, head) && CodeAt(p, off + |a| + |head|, body)
    ensures CodeAt(p, off + |a| + |head| + |body|, tail)
  {
    Split(p, off, a + head + body, tail);
    Split(p, off, a + head, body);
    Split(p, off, a, head);
  }

  lemma EnterLines(l: ForLoop)
    requires l.Placed()
    ensures l.head + 5 < |l.p| && l.p[l.head] == Br(l.n) && l.p[l.head + 1] == LabelLine(l.n)
    ensures l.p[l.head + 2] == Alloca(Ptr(l.x)) && l.p[l.head + 3] == Store(Imm(0), Ptr(l.x))
    ensures l.p[l.head + 4] == Br(l.n + 1) && l.p[l.head + 5] == LabelLine(l.n + 1)
  {
    var c := G.ForHead(l.x, l.n, l.V(), l.bound);
    LineAt(l.p, l.head, c, 0);
    LineAt(l.p, l.head, c, 1);
    LineAt(l.p, l.head, c, 2);
    LineAt(l.p, l.head, c, 3);
    LineAt(l.p, l.head, c, 4);
    LineAt(l.p, l.head, c, 5);
  }

  /** From the bound to the head of the loop: the counter exists and is 0. */
  lemma ForEnter(l: ForLoop, env: Env, m: Machine) returns (m1: Machine)
    requires l.Placed() && m.pc == l.head && Agree(env, m) && l.x !in env
    ensures Reaches(l.p, m, m1) && m1.pc == l.head + 6 && Survive(m, m1, l.k) && m1.out == m.out
    ensures Agree(env[l.x := 0], m1)
  {
    EnterLines(l);
    DoBr(l.p, m, l.n, l.head + 1);
    var m2 := m.(pc := l.head + 2);
    AgreePc(env, m, l.head + 2);
    var m3 := NewVar(l.p, m2, Imm(0), l.x, 0, env);
    Then(l.p, m, m2, m3);
    DoBr(l.p, m3, l.n + 1, l.head + 5);
    m1 := m3.(pc := l.head + 6);
    Then(l.p, m, m3, m1);
    AgreePc(env[l.x := 0], m3, l.head + 6);
    SetPtrSurvives(m, m1, l.x, m2.next, l.k);
  }

  lemma ForHeadLines(l: ForLoop)
    requires l.Placed()
    ensures l.head + 9 < |l.p| && l.bodyEnd + 3 < |l.p|
    ensures l.p[l.head + 5] == LabelLine(l.n + 1) && l.p[l.head + 6] == Load(l.V(), Ptr(l.x))
    ensures l.p[l.head + 7] == Icmp(CmpOf(l.x), Le, R(l.V()), l.bound)
    ensures l.p[l.head + 8] == CondBr(R(CmpOf(l.x)), l.n + 2, l.n + 3) && l.p[l.head + 9] == LabelLine(l.n + 2)
    ensures l.p[l.bodyEnd + 3] == LabelLine(l.n + 3)
  {
    var c := G.ForHead(l.x, l.n, l.V(), l.bound);
    LineAt(l.p, l.head, c, 5);
    LineAt(l.p, l.head, c, 6);
    LineAt(l.p, l.head, c, 7);
    LineAt(l.p, l.head, c, 8);
    LineAt(l.p, l.head, c, 9);
    LineAt(l.p, l.bodyEnd, G.ForTail(l.x, l.n, l.V(), l.next), 3);
  }

  /** The head: load the counter, compare it with the bound, branch. */
  lemma ForTest(l: ForLoop, i: int64, last: int64, env: Env, m: Machine) returns (m1: Machine)
    requires l.Placed() && m.pc == l.head + 6 && l.x in env && env[l.x] == i && Agree(env, m) && Int(m.regs, l.bound) == Some(last)
    ensures Reaches(l.p, m, m1) && m1.pc == (if i <= last then l.head + 10 else l.bodyEnd + 4)
    ensures Agree(env, m1) && m1.out == m.out && Survive(m, m1, l.k)
    ensures l.V() in m1.regs && m1.regs[l.V()] == I64(i)
  {
    var m3 := ForCompare(l, i, last, env, m);
    ForHeadLines(l);
    var at := if i <= last then l.head + 9 else l.bodyEnd + 3;
    DoCondBr(l.p, m3, R(CmpOf(l.x)), l.n + 2, l.n + 3, i <= last, at);
    m1 := m3.(pc := at + 1);
    Then(l.p, m, m3, m1);
    AgreeRegs(env, m, m1);
  }

  /** Load and comparison write the two registers of the loop. */
  lemma ForCompare(l: ForLoop, i: int64, last: int64, env: Env, m: Machine) returns (m1: Machine)
    requires l.Placed() && m.pc == l.head + 6 && l.x in env && env[l.x] == i && Agree(env, m) && Int(m.regs, l.bound) == Some(last)
    ensures m1 == m.(pc := l.head + 8, regs := m.regs[l.V() := I64(i)][CmpOf(l.x) := I1(i <= last)]) && Reaches(l.p, m, m1)
  {
    ForHeadLines(l);
    assert Holds(m, l.x, env[l.x]);
    var m2 := SetReg(m, l.V(), I64(i));
    LoadVar(l.p, m, l.V(), l.x, i);
    m1 := SetReg(m2, CmpOf(l.x), I1(i <= last));
    DoIcmp(l.p, m2, CmpOf(l.x), Le, R(l.V()), l.bound, i, last);
    Then(l.p, m, m2, m1);
  }

  /** Only the address registers of the variables matter. */
  lemma AgreeRegs(env: Env, m: Machine, m1: Machine)
    requires Agree(env, m) && m1.mem == m.mem && m1.next == m.next
    requires forall x :: Ptr(x) in m.regs ==> Ptr(x) in m1.regs && m1.regs[Ptr(x)] == m.regs[Ptr(x)]
    ensures Agree(env, m1)
  {
    forall x | x in env ensures Holds(m1, x, env[x]) {
      assert Holds(m, x, env[x]);
    }
    forall x, y | x in env && y in env && x != y ensures Apart(m1, x, y) {
      assert Apart(m, x, y);
    }
  }

  /** The end of the body: the counter becomes the value that the head loaded, plus one. */
  lemma ForNext(l: ForLoop, i: int64, env: Env, m: Machine) returns (m1: Machine)
    requires l.Placed() && m.pc == l.bodyEnd && l.x in env && Agree(env, m) && Fits(i + 1)
    requires l.V() in m.regs && m.regs[l.V()] == I64(i)
    ensures Reaches(l.p, m, m1) && m1.pc == l.head + 6 && m1.out == m.out
    ensures Agree(env[l.x := i + 1], m1) && Survive(m, m1, l.k)
  {
    var m3 := ForCount(l, i, env, m);
    LineAt(l.p, l.bodyEnd, G.ForTail(l.x, l.n, l.V(), l.next), 2);
    LineAt(l.p, l.head, G.ForHead(l.x, l.n, l.V(), l.bound), 5);
    m1 := m3.(pc := l.head + 6);
    DoBr(l.p, m3, l.n + 1, l.head + 5);
    Then(l.p, m, m3, m1);
    AgreePc(env[l.x := i + 1], m3, l.head + 6);
  }

  /** Addition and store. */
  lemma ForCount(l: ForLoop, i: int64, env: Env, m: Machine) returns (m1: Machine)
    requires l.Placed() && m.pc == l.bodyEnd && l.x in env && Agree(env, m) && Fits(i + 1)
    requires l.V() in m.regs && m.regs[l.V()] == I64(i)
    ensures Reaches(l.p, m, m1) && m1.pc == l.bodyEnd + 2 && m1.out == m.out && Agree(env[l.x := i + 1], m1)
    ensures m1.regs == m.regs[Tmp(l.next) := I64(i + 1)]
  {
    var c, t := G.ForTail(l.x, l.n, l.V(), l.next), Tmp(l.next);
    LineAt(l.p, l.bodyEnd, c, 0);
    LineAt(l.p, l.bodyEnd, c, 1);
    var m2 := SetReg(m, t, I64(i + 1));
    DoArith(l.p, m, t, ArithOp.Add, R(l.V()), Imm(1), i, 1, i + 1);
    AgreeRegs(env, m, m2);
    m1 := StoreVar(l.p, m2, R(t), l.x, i + 1, env);
    Then(l.p, m, m2, m1);
  }

  /** At the head of the loop with counter i: the interpreter still has the values i..last to go. */
  ghost predicate AtHead(l: ForLoop, i: int, last: int64, st: I.State, m: Machine) {
    && m.pc == l.head + 6 && 0 <= i && Fits(i)
    && Tidy(st.frames, ScopeOf(st)) && m.out == st.output && Agree(Flat(st.frames)[l.x := i], m)
    && Int(m.regs, l.bound) == Some(last)
  }

  lemma ForStep(x: Name, i: int, last: int64, body: seq<Stmt>, st: I.State, fuel: nat, scope: set<Name>)
    requires i <= last && Fits(i) && x !in scope && ScopedBlock(body, scope + {x}) && Tidy(st.frames, scope)
    requires I.ExecFor(x, I.Ascend(i, last), body, st, fuel).Ok? && I.ExecFor(x, I.Ascend(i, last), body, st, fuel).value.notes == {}
    ensures var r := I.ExecScope(map[x := i], body, st, fuel);
      && r.Ok? && r.value.notes == {} && Tidy(r.value.frames, scope)
      && I.ExecFor(x, I.Ascend(i, last), body, st, fuel) == I.ExecFor(x, I.Ascend(i + 1, last), body, r.value, fuel)
  {
    var vs := I.Ascend(i, last);
    assert vs[0] == i && vs[1..] == I.Ascend(i + 1, last);
    var st1 := I.ExecScope(map[x := i], body, st, fuel).value;
    ForNotes(x, I.Ascend(i + 1, last), body, st1, fuel);
    ScopeKeeps(map[x := i], body, st, fuel, scope, scope + {x});
  }

  lemma BodyScoped(l: ForLoop, body: seq<Stmt>, slots: G.Slots, scope: set<Name>)
    requires l.Body(body, slots, scope)
    ensures ScopedBlock(body, scope + {l.x})
  {
    BodyMeans(l.p, l.head + 10, l.bodyEnd, body, l.k + 1, slots[l.x := Ptr(l.x)], scope + {l.x});
  }

  /** A run of the loop from counter i on; `last` is the value of the bound. */
  lemma {:induction false} ForCorrect(l: ForLoop, body: seq<Stmt>, slots: G.Slots, i: int, last: int64, st: I.State, fuel: nat, m: Machine)
    returns (m1: Machine)
    requires l.Placed() && l.x !in ScopeOf(st) && l.Body(body, slots, ScopeOf(st)) && AtHead(l, i, last, st, m) && Fits(last + 1)
    requires I.ExecFor(l.x, I.Ascend(i, last), body, st, fuel).Ok? && I.ExecFor(l.x, I.Ascend(i, last), body, st, fuel).value.notes == {}
    ensures Progress(l.p, m, m1, I.ExecFor(l.x, I.Ascend(i, last), body, st, fuel).value, l.k) && m1.pc == l.bodyEnd + 4
    decreases fuel, body, 4, last - i + 1
  {
    if i <= last {
      BodyScoped(l, body, slots, ScopeOf(st));
      ForStep(l.x, i, last, body, st, fuel, ScopeOf(st));
      var st1 := I.ExecScope(map[l.x := i], body, st, fuel).value;
      var m2 := ForRound(l, body, slots, i, last, st, st1, fuel, m);
      m1 := ForCorrect(l, body, slots, i + 1, last, st1, fuel, m2);
      Then(l.p, m, m2, m1);
      SurviveTrans(m, m2, m1, l.k, l.k);
    } else {
      m1 := ForTest(l, i, last, Flat(st.frames)[l.x := i], m);
      AgreeSubset(Flat(st.frames)[l.x := i], Flat(st.frames), m1);
    }
  }

  /** One round: the test, the body, the counter. */
  lemma {:induction false} ForRound(l: ForLoop, body: seq<Stmt>, slots: G.Slots, i: int64, last: int64, st: I.State, st1: I.State, fuel: nat, m: Machine)
    returns (m1: Machine)
    requires l.Placed() && l.x !in ScopeOf(st) && l.Body(body, slots, ScopeOf(st)) && AtHead(l, i, last, st, m) && i <= last && Fits(last + 1)
    requires I.ExecScope(map[l.x := i], body, st, fuel) == I.Ok(st1) && st1.notes == {} && Tidy(st1.frames, ScopeOf(st))
    ensures Reaches(l.p, m, m1) && AtHead(l, i + 1, last, st1, m1) && Survive(m, m1, l.k)
    decreases fuel, body, 3
  {
    var env := Flat(st.frames)[l.x := i];
    var m2 := ForTest(l, i, last, env, m);
    var m3, all := ForBody(l, body, slots, i, st, st1, fuel, m2);
    m1 := ForNext(l, i, all, m3);
    ThreeReach(l.p, m, m2, m3, m1, l.k);
    AgreeSubset(all[l.x := i + 1], Flat(st1.frames)[l.x := i + 1], m1);
    OperandSurvives(l.bound, m, m1, l.k);
  }

  lemma ThreeReach(p: Code, m: Machine, m1: Machine, m2: Machine, m3: Machine, n: nat)
    requires Reaches(p, m, m1) && Reaches(p, m1, m2) && Reaches(p, m2, m3) && Survive(m, m1, n) && Survive(m1, m2, n) && Survive(m2, m3, n)
    ensures Reaches(p, m, m3) && Survive(m, m3, n)
  {
    Then(p, m, m1, m2);
    Then(p, m, m2, m3);
    SurviveTrans(m, m1, m2, n, n);
    SurviveTrans(m, m2, m3, n, n);
  }

  lemma {:induction false} ForBody(l: ForLoop, body: seq<Stmt>, slots: G.Slots, i: int64, st: I.State, st1: I.State, fuel: nat, m: Machine)
    returns (m1: Machine, all: Env)
    requires LabelsOnce(l.p) && l.x !in ScopeOf(st) && l.Body(body, slots, ScopeOf(st)) && m.pc == l.head + 10
    requires Tidy(st.frames, ScopeOf(st)) && Agree(Flat(st.frames)[l.x := i], m) && m.out == st.output
    requires l.V() in m.regs && m.regs[l.V()] == I64(i)
    requires I.ExecScope(map[l.x := i], body, st, fuel) == I.Ok(st1) && st1.notes == {}
    ensures Reaches(l.p, m, m1) && m1.pc == l.bodyEnd && Survive(m, m1, l.k) && m1.out == st1.output
    ensures l.V() in m1.regs && m1.regs[l.V()] == I64(i) && Agree(all, m1) && l.x in all
    ensures var env1 := Flat(st1.frames); forall y :: y in env1 ==> y in all && all[y] == env1[y]
    decreases fuel, body, 2, 1
  {
    var top: I.Frame := map[l.x := i];
    BodyMeans(l.p, l.head + 10, l.bodyEnd, body, l.k + 1, slots[l.x := Ptr(l.x)], ScopeOf(st) + {l.x});
    ForBinding(l.x, i, st, top);
    m1, all := ScopeCorrect(l.p, l.head + 10, top, body, l.k + 1, slots[l.x := Ptr(l.x)], st, fuel, m);
    assert Kept(m, m1, l.V());
    SurviveWeaken(m, m1, l.k, l.k + 1);
  }

  lemma ForBinding(x: Name, i: int64, st: I.State, top: I.Frame)
    requires x !in ScopeOf(st) && top == map[x := i]
    ensures Flat(st.frames)[x := i] == Flat(st.frames) + top && ScopeOf(st) + {x} == ScopeOf(st) + top.Keys
    ensures ScopeOf(st) !! top.Keys
  {
    assert top.Keys == {x};
  }

  lemma SurviveWeaken(m: Machine, m1: Machine, n: int, k: int)
    requires Survive(m, m1, k) && n <= k
    ensures Survive(m, m1, n)
  {
  }

  lemma ForUnfold(x: Name, it: Iter, body: seq<Stmt>, st: I.State, fuel: nat)
    requires st.frames != [] && I.Exec(For(x, it, body), st, fuel).Ok? && I.Exec(For(x, it, body), st, fuel).value.notes == {}
    ensures I.EvalIter(it, st.frames).Ok? && Fits(I.EvalIter(it, st.frames).value.Last() + 1)
    ensures I.Exec(For(x, it, body), st, fuel) == I.ExecFor(x, I.Ascend(0, I.EvalIter(it, st.frames).value.Last()), body, st, fuel)
  {
    var bounds := I.EvalIter(it, st.frames).value;
    var st1 := st.(notes := st.notes + if bounds.Differ() then {I.IterationsDiffer} else {});
    ForNotes(x, bounds.Values(), body, st1, fuel);
    assert I.IterationsDiffer !in st1.notes;
    IterationsAgree(bounds);
    assert st1 == st;
  }

  /** The generated loop runs the body for 0, 1, ... up to and including the bound, whatever
      the interpreter makes of the same iterator. */
  lemma {:induction false} ForCompiled(p: Code, off: nat, s: Stmt, n: nat, slots: G.Slots, st: I.State, fuel: nat, last: int64, m: Machine)
    returns (m1: Machine)
    requires s.For? && Ready(p, off, G.Stmt(s, n, slots).code, slots, st, m) && Scoped(s, ScopeOf(st))
    requires I.EvalIter(s.iter, st.frames).Ok? && last == I.EvalIter(s.iter, st.frames).value.Last() && Fits(last + 1)
    requires I.ExecFor(s.name, I.Ascend(0, last), s.body, st, fuel).Ok?
    requires I.ExecFor(s.name, I.Ascend(0, last), s.body, st, fuel).value.notes == {}
    ensures Progress(p, m, m1, I.ExecFor(s.name, I.Ascend(0, last), s.body, st, fuel).value, n)
    ensures m1.pc == off + |G.Stmt(s, n, slots).code|
    decreases fuel, s.body, 5, 0
  {
    var l, m2 := BoundPlaced(p, off, s, n, slots, st, last, m);
    m1 := ForRuns(l, s.body, slots, st, fuel, last, m2);
    Then(p, m, m2, m1);
    SurviveTrans(m, m2, m1, n, l.k);
  }

  /** The bound is computed, and the lines of the loop are found. */
  lemma BoundPlaced(p: Code, off: nat, s: Stmt, n: nat, slots: G.Slots, st: I.State, last: int64, m: Machine) returns (l: ForLoop, m1: Machine)
    requires s.For? && Ready(p, off, G.Stmt(s, n, slots).code, slots, st, m) && Scoped(s, ScopeOf(st))
    requires I.EvalIter(s.iter, st.frames).Ok? && last == I.EvalIter(s.iter, st.frames).value.Last()
    ensures l.Placed() && l.p == p && l.x == s.name && l.Body(s.body, slots, ScopeOf(st)) && n <= l.k
    ensures l.bodyEnd + 4 == off + |G.Stmt(s, n, slots).code|
    ensures Progress(p, m, m1, st, n) && m1.pc == l.head && Int(m1.regs, l.bound) == Some(last)
  {
    var gi := G.Bound(s.iter, n + 4, slots);
    var gb := G.Block(s.body, gi.n + 1, slots[s.name := Ptr(s.name)]);
    BoundFirst(p, off, s, n, slots, gi, gb);
    m1 := BoundCorrect(p, off, s.iter, n + 4, slots, st.frames, m);
    l := ForPlaced(p, off, s.name, s.body, n, slots, ScopeOf(st), gi, gb);
    Begin(p, m, st, n);
    ThenExpr(p, m, m, m1, st, n, n + 4);
  }

  lemma BoundFirst(p: Code, off: nat, s: Stmt, n: nat, slots: G.Slots, gi: G.GenE, gb: G.GenS)
    requires s.For? && CodeAt(p, off, G.Stmt(s, n, slots).code)
    requires gi == G.Bound(s.iter, n + 4, slots) && gb == G.Block(s.body, gi.n + 1, slots[s.name := Ptr(s.name)])
    ensures CodeAt(p, off, gi.code) && G.Stmt(s, n, slots).code == ForText(s.name, n, gi, gb)
  {
    var v := Val(s.name, gi.n);
    G.ForUnfold(s.name, s.iter, s.body, n, slots, gi, gb);
    ForLines(p, off, gi.code, G.ForHead(s.name, n, v, gi.v), gb.code, G.ForTail(s.name, n, v, gb.n));
  }

  /** The loop from its first line on. */
  lemma {:induction false} ForRuns(l: ForLoop, body: seq<Stmt>, slots: G.Slots, st: I.State, fuel: nat, last: int64, m: Machine) returns (m1: Machine)
    requires l.Placed() && l.x !in ScopeOf(st) && l.Body(body, slots, ScopeOf(st)) && Match(st, m)
    requires m.pc == l.head && Int(m.regs, l.bound) == Some(last) && Fits(last + 1)
    requires I.ExecFor(l.x, I.Ascend(0, last), body, st, fuel).Ok? && I.ExecFor(l.x, I.Ascend(0, last), body, st, fuel).value.notes == {}
    ensures Progress(l.p, m, m1, I.ExecFor(l.x, I.Ascend(0, last), body, st, fuel).value, l.k) && m1.pc == l.bodyEnd + 4
    decreases fuel, body, 4, if last >= 0 then last + 2 else 2
  {
    var m2 := ForEnter(l, Flat(st.frames), m);
    OperandSurvives(l.bound, m, m2, l.k);
    m1 := ForCorrect(l, body, slots, 0, last, st, fuel, m2);
    Then(l.p, m, m2, m1);
    SurviveTrans(m, m2, m1, l.k, l.k);
  }

  lemma {:induction false} ForStmt(p: Code, off: nat, s: Stmt, n: nat, slots: G.Slots, st: I.State, fuel: nat, m: Machine)
    returns (m1: Machine)
    requires s.For? && Ready(p, off, G.Stmt(s, n, slots).code, slots, st, m) && Scoped(s, ScopeOf(st))
    requires I.Exec(s, st, fuel).Ok? && I.Exec(s, st, fuel).value.notes == {}
    ensures Progress(p, m, m1, I.Exec(s, st, fuel).value, n) && m1.pc == off + |G.Stmt(s, n, slots).code|
    decreases fuel, s.body, 5, 1
  {
    ForUnfold(s.name, s.iter, s.body, st, fuel);
    m1 := ForCompiled(p, off, s, n, slots, st, fuel, I.EvalIter(s.iter, st.frames).value.Last(), m);
  }
}
