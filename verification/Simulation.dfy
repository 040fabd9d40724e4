/** The emitted code does what the interpreter does. */
module Simulation {
  import opened Wrappers
  import opened Int64
  import opened Ast
  import opened Ir
  import opened FrameFacts
  import I = Interp
  import G = Codegen

  // ----- one instruction at a time -----

  predicate At(p: Code, m: Machine, line: Line) { m.pc < |p| && p[m.pc] == line }

  lemma DoAlloca(p: Code, m: Machine, dst: Reg)
    requires At(p, m, Alloca(dst))
    ensures Reaches(p, m, SetReg(m, dst, Addr(m.next)).(next := m.next + 1))
  {
    One(p, m, SetReg(m, dst, Addr(m.next)).(next := m.next + 1));
  }

  lemma DoStore(p: Code, m: Machine, v: Operand, ptr: Reg, n: int64, a: nat)
    requires At(p, m, Store(v, ptr)) && Int(m.regs, v) == Some(n) && Pointer(m.regs, ptr) == Some(a)
    ensures Reaches(p, m, m.(pc := m.pc + 1, mem := m.mem[a := n]))
  {
    One(p, m, m.(pc := m.pc + 1, mem := m.mem[a := n]));
  }

  lemma DoLoad(p: Code, m: Machine, dst: Reg, ptr: Reg, a: nat)
    requires At(p, m, Load(dst, ptr)) && Pointer(m.regs, ptr) == Some(a) && a in m.mem
    ensures Reaches(p, m, SetReg(m, dst, I64(m.mem[a])))
  {
    One(p, m, SetReg(m, dst, I64(m.mem[a])));
  }

  lemma DoArith(p: Code, m: Machine, dst: Reg, op: ArithOp, a: Operand, b: Operand, x: int64, y: int64, z: int64)
    requires At(p, m, Arith(dst, op, a, b)) && Int(m.regs, a) == Some(x) && Int(m.regs, b) == Some(y)
    requires Compute(op, x, y) == Some(z)
    ensures Reaches(p, m, SetReg(m, dst, I64(z)))
  {
    One(p, m, SetReg(m, dst, I64(z)));
  }

  lemma DoIcmp(p: Code, m: Machine, dst: Reg, op: CmpOp, a: Operand, b: Operand, x: int64, y: int64)
    requires At(p, m, Icmp(dst, op, a, b)) && Int(m.regs, a) == Some(x) && Int(m.regs, b) == Some(y)
    ensures Reaches(p, m, SetReg(m, dst, I1(CompareInt(op, x, y))))
  {
    One(p, m, SetReg(m, dst, I1(CompareInt(op, x, y))));
  }

  lemma DoXorTrue(p: Code, m: Machine, dst: Reg, v: Operand, b: bool)
    requires At(p, m, XorTrue(dst, v)) && Flag(m.regs, v) == Some(b)
    ensures Reaches(p, m, SetReg(m, dst, I1(!b)))
  {
    One(p, m, SetReg(m, dst, I1(!b)));
  }

  lemma DoPrint(p: Code, m: Machine, v: Operand, n: int64)
    requires At(p, m, CallPrint(v)) && Int(m.regs, v) == Some(n)
    ensures Reaches(p, m, m.(pc := m.pc + 1, out := m.out + [n]))
  {
    One(p, m, m.(pc := m.pc + 1, out := m.out + [n]));
  }

  predicate NoTwin(p: Code, i: nat, j: nat) {
    i < |p| && j < |p| && p[i].LabelLine? && p[i] == p[j] ==> i == j
  }

  /** No label is on two lines. */
  ghost predicate LabelsOnce(p: Code) {
    forall i: nat, j: nat {:trigger NoTwin(p, i, j)} :: NoTwin(p, i, j)
  }

  lemma LabelFound(p: Code, l: Label, at: nat)
    requires LabelsOnce(p) && at < |p| && p[at] == LabelLine(l)
    ensures FindLabel(p, l, 0) == Some(at)
  {
    assert NoTwin(p, FindLabel(p, l, 0).value, at);
  }

  lemma DoBr(p: Code, m: Machine, l: Label, at: nat)
    requires At(p, m, Br(l)) && LabelsOnce(p) && at < |p| && p[at] == LabelLine(l)
    ensures Reaches(p, m, m.(pc := at + 1))
  {
    LabelFound(p, l, at);
    One(p, m, m.(pc := at + 1));
  }

  lemma DoCondBr(p: Code, m: Machine, c: Operand, yes: Label, no: Label, b: bool, at: nat)
    requires At(p, m, CondBr(c, yes, no)) && LabelsOnce(p) && Flag(m.regs, c) == Some(b)
    requires at < |p| && p[at] == LabelLine(if b then yes else no)
    ensures Reaches(p, m, m.(pc := at + 1))
  {
    var l := if b then yes else no;
    LabelFound(p, l, at);
    One(p, m, m.(pc := at + 1));
  }

  // ----- where a piece of code sits in the program -----

  predicate LineIs(p: Code, off: nat, c: Code, i: nat) {
    off + i < |p| && i < |c| && p[off + i] == c[i]
  }

  predicate CodeAt(p: Code, off: nat, c: Code) {
    off + |c| <= |p| && forall i: nat {:trigger LineIs(p, off, c, i)} :: i < |c| ==> LineIs(p, off, c, i)
  }

  lemma LineAt(p: Code, off: nat, c: Code, i: nat)
    requires CodeAt(p, off, c) && i < |c|
    ensures off + i < |p| && p[off + i] == c[i]
  {
    assert LineIs(p, off, c, i);
  }

  lemma Split(p: Code, off: nat, a: Code, b: Code)
    requires CodeAt(p, off, a + b)
    ensures CodeAt(p, off, a) && CodeAt(p, off + |a|, b)
  {
    forall i: nat | i < |a| ensures LineIs(p, off, a, i) {
      assert LineIs(p, off, a + b, i);
    }
    var off1 := off + |a|;
    forall i: nat | i < |b| ensures LineIs(p, off1, b, i) {
      assert LineIs(p, off, a + b, |a| + i);
    }
  }

  lemma SplitLast(p: Code, off: nat, a: Code, line: Line)
    requires CodeAt(p, off, a + [line])
    ensures CodeAt(p, off, a) && off + |a| < |p| && p[off + |a|] == line
  {
    Split(p, off, a, [line]);
    LineAt(p, off + |a|, [line], 0);
  }

  // ----- the relation between the two states -----

  /** Number of a register that comes from the counter; -1 for one named after a variable. */
  function Num(r: Reg): int {
    match r
    case Tmp(n) => n
    case Val(_, n) => n
    case _ => -1
  }

  predicate SlotsOk(slots: G.Slots) { forall x :: x in slots ==> slots[x] == Ptr(x) }

  /** The slot of x is allocated and holds v. */
  predicate Holds(m: Machine, x: Name, v: int64) {
    Ptr(x) in m.regs && m.regs[Ptr(x)].Addr? && m.regs[Ptr(x)].a < m.next
    && m.regs[Ptr(x)].a in m.mem && m.mem[m.regs[Ptr(x)].a] == v
  }

  predicate Apart(m: Machine, x: Name, y: Name) {
    Ptr(x) in m.regs && Ptr(y) in m.regs && m.regs[Ptr(x)] != m.regs[Ptr(y)]
  }

  /** Every visible variable has a slot of its own with its value. */
  predicate Agree(env: Env, m: Machine) {
    (forall x {:trigger Holds(m, x, env[x])} :: x in env ==> Holds(m, x, env[x]))
    && (forall x, y {:trigger Apart(m, x, y)} :: x in env && y in env && x != y ==> Apart(m, x, y))
  }

  /** What the generator knows about the visible names. */
  predicate Slotted(scope: set<Name>, slots: G.Slots) { SlotsOk(slots) && scope <= slots.Keys }

  /** A register of m is unchanged in m1. */
  predicate Kept(m: Machine, m1: Machine, r: Reg) {
    r in m.regs ==> r in m1.regs && m1.regs[r] == m.regs[r]
  }

  /** An expression changes nothing but the registers numbered from n on. */
  ghost predicate OnlyAbove(m: Machine, m1: Machine, n: int) {
    m1.mem == m.mem && m1.next == m.next && m1.out == m.out
    && forall r {:trigger Kept(m, m1, r)} :: Num(r) < n ==> Kept(m, m1, r)
  }

  /** Numbered registers below n survive. */
  ghost predicate Survive(m: Machine, m1: Machine, n: int) {
    forall r {:trigger Kept(m, m1, r)} :: 0 <= Num(r) < n ==> Kept(m, m1, r)
  }

  lemma SurviveTrans(m: Machine, m1: Machine, m2: Machine, n: int, k: int)
    requires Survive(m, m1, n) && Survive(m1, m2, k) && n <= k
    ensures Survive(m, m2, n)
  {
    forall r | 0 <= Num(r) < n ensures Kept(m, m2, r) {
      assert Kept(m, m1, r) && Kept(m1, m2, r);
    }
  }

  lemma OnlyAboveTrans(m: Machine, m1: Machine, m2: Machine, n: int, k: int)
    requires OnlyAbove(m, m1, n) && OnlyAbove(m1, m2, k) && n <= k
    ensures OnlyAbove(m, m2, n)
  {
    forall r | Num(r) < n ensures Kept(m, m2, r) {
      assert Kept(m, m1, r) && Kept(m1, m2, r);
    }
  }

  lemma OnlyAboveSurvive(m: Machine, m1: Machine, n: int, k: int)
    requires OnlyAbove(m, m1, n) && k <= n
    ensures Survive(m, m1, k)
  {
  }

  /** Setting a register numbered at least n changes nothing below n. */
  lemma SetAbove(m: Machine, r: Reg, w: Word, n: nat)
    requires Num(r) >= n
    ensures OnlyAbove(m, SetReg(m, r, w), n)
  {
  }

  lemma AgreeOnlyAbove(env: Env, m: Machine, m1: Machine, n: nat)
    requires Agree(env, m) && OnlyAbove(m, m1, n)
    ensures Agree(env, m1)
  {
    forall x | x in env ensures Holds(m1, x, env[x]) {
      assert Holds(m, x, env[x]) && Kept(m, m1, Ptr(x));
    }
    forall x, y | x in env && y in env && x != y ensures Apart(m1, x, y) {
      assert Apart(m, x, y) && Kept(m, m1, Ptr(x)) && Kept(m, m1, Ptr(y));
    }
  }

  /** An operand that an expression computed is a constant or a register numbered in [n, n1). */
  predicate Ranged(v: Operand, n: int, n1: int) { v.R? ==> n <= Num(v.r) < n1 }

  lemma OperandSurvives(v: Operand, m: Machine, m1: Machine, n: nat)
    requires Survive(m, m1, n) && Ranged(v, 0, n)
    ensures Get(m.regs, v).Some? ==> Get(m1.regs, v) == Get(m.regs, v)
  {
    if v.R? { assert Kept(m, m1, v.r); }
  }

  // ----- expressions -----

  /** The machine instruction of each operator agrees with the interpreter when that succeeds. */
  lemma InstrCorrect(op: BinOp, a: int64, b: int64)
    requires I.EvalBinop(op, a, b).Ok?
    ensures Compute(G.Instr(op), a, b) == Some(I.EvalBinop(op, a, b).value)
  {
  }

  /** It is undefined exactly where the interpreter reports an error. */
  lemma InstrUndefined(op: BinOp, a: int64, b: int64)
    ensures Compute(G.Instr(op), a, b).None? <==> I.EvalBinop(op, a, b).Err?
    ensures I.EvalBinop(op, a, b) != I.OutOfFuel
  {}

  lemma UnOpCorrect(p: Code, op: UnOp, g: G.GenE, v: int64, m: Machine) returns (m1: Machine)
    requires At(p, m, if op.Neg? then Arith(Tmp(g.n), ArithOp.Sub, Imm(0), g.v) else Arith(Tmp(g.n), Xor, g.v, Imm(-1)))
    requires Int(m.regs, g.v) == Some(v) && (op.Neg? ==> Fits(0 - v))
    ensures m1 == SetReg(m, Tmp(g.n), I64(if op.Neg? then 0 - v else -1 - v)) && Reaches(p, m, m1)
  {
    m1 := SetReg(m, Tmp(g.n), I64(if op.Neg? then 0 - v else -1 - v));
    if op.Neg? {
      DoArith(p, m, Tmp(g.n), ArithOp.Sub, Imm(0), g.v, 0, v, 0 - v);
    } else {
      Pow2Of63();
      XorMinusOne(63, v);
      DoArith(p, m, Tmp(g.n), Xor, g.v, Imm(-1), v, -1, -1 - v);
    }
  }

  lemma BinOpCorrect(p: Code, op: BinOp, n: nat, va: Operand, vb: Operand, a: int64, b: int64, m: Machine) returns (m1: Machine)
    requires At(p, m, Arith(Tmp(n), G.Instr(op), va, vb)) && I.EvalBinop(op, a, b).Ok?
    requires Int(m.regs, va) == Some(a) && Int(m.regs, vb) == Some(b)
    ensures m1 == SetReg(m, Tmp(n), I64(I.EvalBinop(op, a, b).value)) && Reaches(p, m, m1)
  {
    InstrCorrect(op, a, b);
    m1 := SetReg(m, Tmp(n), I64(I.EvalBinop(op, a, b).value));
    DoArith(p, m, Tmp(n), G.Instr(op), va, vb, a, b, I.EvalBinop(op, a, b).value);
  }

  /** What the code of an expression does: it leaves the value in the operand and changes
      no register below its numbers. */
  ghost predicate Computes(p: Code, off: nat, g: G.GenE, n: nat, v: int64, m: Machine, m1: Machine) {
    && Reaches(p, m, m1) && m1.pc == off + |g.code| && OnlyAbove(m, m1, n)
    && Int(m1.regs, g.v) == Some(v) && Ranged(g.v, n, g.n)
  }

  lemma LoadVar(p: Code, m: Machine, dst: Reg, x: Name, v: int64)
    requires At(p, m, Load(dst, Ptr(x))) && Holds(m, x, v)
    ensures Reaches(p, m, SetReg(m, dst, I64(v)))
  {
    DoLoad(p, m, dst, Ptr(x), m.regs[Ptr(x)].a);
  }

  lemma IdentCorrect(p: Code, off: nat, x: Name, n: nat, slots: G.Slots, frames: seq<I.Frame>, m: Machine) returns (m1: Machine)
    requires CodeAt(p, off, G.Expr(Ident(x), n, slots).code) && m.pc == off
    requires I.GetVar(frames, x).Ok? && Agree(Flat(frames), m) && Slotted(Flat(frames).Keys, slots)
    ensures Computes(p, off, G.Expr(Ident(x), n, slots), n, I.GetVar(frames, x).value, m, m1)
  {
    GetVarFlat(frames, x);
    assert Holds(m, x, Flat(frames)[x]);
    IdentCode(x, n, slots);
    m1 := LoadCorrect(p, off, x, n, I.GetVar(frames, x).value, m);
  }

  lemma IdentCode(x: Name, n: nat, slots: G.Slots)
    requires SlotsOk(slots) && x in slots
    ensures G.Expr(Ident(x), n, slots) == G.GenE([Load(Val(x, n), Ptr(x))], R(Val(x, n)), n + 1)
  {}

  lemma LoadCorrect(p: Code, off: nat, x: Name, n: nat, v: int64, m: Machine) returns (m1: Machine)
    requires CodeAt(p, off, [Load(Val(x, n), Ptr(x))]) && m.pc == off && Holds(m, x, v)
    ensures Computes(p, off, G.GenE([Load(Val(x, n), Ptr(x))], R(Val(x, n)), n + 1), n, v, m, m1)
  {
    LineAt(p, off, [Load(Val(x, n), Ptr(x))], 0);
    m1 := SetReg(m, Val(x, n), I64(v));
    LoadVar(p, m, Val(x, n), x, v);
    SetAbove(m, Val(x, n), I64(v), n);
  }

  lemma {:induction false} ExprCorrect(p: Code, off: nat, e: Expr, n: nat, slots: G.Slots, frames: seq<I.Frame>, m: Machine)
    returns (m1: Machine)
    requires CodeAt(p, off, G.Expr(e, n, slots).code) && m.pc == off
    requires I.EvalExpr(e, frames).Ok? && Agree(Flat(frames), m) && Slotted(Flat(frames).Keys, slots)
    ensures Computes(p, off, G.Expr(e, n, slots), n, I.EvalExpr(e, frames).value, m, m1)
    decreases e, 0
  {
    match e
    case LitInt(_) =>
      Here(p, m);
      m1 := m;
    case Ident(x) =>
      m1 := IdentCorrect(p, off, x, n, slots, frames, m);
    case UnOp(op, inner) =>
      m1 := UnOpExprCorrect(p, off, op, inner, n, slots, frames, m);
    case BinOp(op, l, r) =>
      m1 := BinOpExprCorrect(p, off, op, l, r, n, slots, frames, m);
  }

  lemma {:induction false} UnOpExprCorrect(p: Code, off: nat, op: UnOp, inner: Expr, n: nat, slots: G.Slots, frames: seq<I.Frame>, m: Machine)
    returns (m1: Machine)
    requires CodeAt(p, off, G.Expr(Expr.UnOp(op, inner), n, slots).code) && m.pc == off
    requires I.EvalExpr(Expr.UnOp(op, inner), frames).Ok? && Agree(Flat(frames), m) && Slotted(Flat(frames).Keys, slots)
    ensures Computes(p, off, G.Expr(Expr.UnOp(op, inner), n, slots), n, I.EvalExpr(Expr.UnOp(op, inner), frames).value, m, m1)
    decreases inner, 2
  {
    var g := G.Expr(inner, n, slots);
    SplitLast(p, off, g.code, if op.Neg? then Arith(Tmp(g.n), ArithOp.Sub, Imm(0), g.v) else Arith(Tmp(g.n), Xor, g.v, Imm(-1)));
    var m2 := ExprCorrect(p, off, inner, n, slots, frames, m);
    m1 := UnOpThen(p, m, m2, n, op, g, I.EvalExpr(inner, frames).value);
  }

  lemma UnOpThen(p: Code, m: Machine, m2: Machine, n: nat, op: UnOp, g: G.GenE, v: int64) returns (m1: Machine)
    requires Reaches(p, m, m2) && OnlyAbove(m, m2, n) && n <= g.n && Int(m2.regs, g.v) == Some(v) && (op.Neg? ==> Fits(0 - v))
    requires At(p, m2, if op.Neg? then Arith(Tmp(g.n), ArithOp.Sub, Imm(0), g.v) else Arith(Tmp(g.n), Xor, g.v, Imm(-1)))
    ensures Reaches(p, m, m1) && m1.pc == m2.pc + 1 && OnlyAbove(m, m1, n)
    ensures Int(m1.regs, R(Tmp(g.n))) == Some(if op.Neg? then 0 - v else -1 - v)
  {
    m1 := UnOpCorrect(p, op, g, v, m2);
    Then(p, m, m2, m1);
    SetAbove(m2, Tmp(g.n), m1.regs[Tmp(g.n)], g.n);
    OnlyAboveTrans(m, m2, m1, n, g.n);
  }

  lemma {:induction false} BinOpExprCorrect(p: Code, off: nat, op: BinOp, l: Expr, r: Expr, n: nat, slots: G.Slots, frames: seq<I.Frame>, m: Machine)
    returns (m1: Machine)
    requires CodeAt(p, off, G.Expr(Expr.BinOp(op, l, r), n, slots).code) && m.pc == off
    requires I.EvalExpr(Expr.BinOp(op, l, r), frames).Ok? && Agree(Flat(frames), m) && Slotted(Flat(frames).Keys, slots)
    ensures Computes(p, off, G.Expr(Expr.BinOp(op, l, r), n, slots), n, I.EvalExpr(Expr.BinOp(op, l, r), frames).value, m, m1)
    decreases if l < r then r else l, 2
  {
    var gl := G.Expr(l, n, slots);
    var gr := G.Expr(r, gl.n, slots);
    BinOpValue(op, l, r, frames);
    var a, b := I.EvalExpr(l, frames).value, I.EvalExpr(r, frames).value;
    SplitLast(p, off, gl.code + gr.code, Arith(Tmp(gr.n), G.Instr(op), gl.v, gr.v));
    var m2 := BothCorrect(p, off, l, r, n, slots, frames, m);
    m1 := BinOpThen(p, m, m2, n, op, gr.n, gl.v, gr.v, a, b);
  }

  /** The value of an operation is that of the operator on the values. */
  lemma BinOpValue(op: BinOp, l: Expr, r: Expr, frames: seq<I.Frame>)
    requires I.EvalExpr(Expr.BinOp(op, l, r), frames).Ok?
    ensures I.EvalExpr(l, frames).Ok? && I.EvalExpr(r, frames).Ok?
    ensures I.EvalExpr(Expr.BinOp(op, l, r), frames) == I.EvalBinop(op, I.EvalExpr(l, frames).value, I.EvalExpr(r, frames).value)
  {}

  /** The instruction behind the code of both operands. */
  lemma BinOpThen(p: Code, m: Machine, m2: Machine, n: nat, op: BinOp, k: nat, x: Operand, y: Operand, a: int64, b: int64) returns (m1: Machine)
    requires Reaches(p, m, m2) && OnlyAbove(m, m2, n) && n <= k && At(p, m2, Arith(Tmp(k), G.Instr(op), x, y))
    requires Int(m2.regs, x) == Some(a) && Int(m2.regs, y) == Some(b) && I.EvalBinop(op, a, b).Ok?
    ensures Reaches(p, m, m1) && m1.pc == m2.pc + 1 && OnlyAbove(m, m1, n)
    ensures Int(m1.regs, R(Tmp(k))) == Some(I.EvalBinop(op, a, b).value)
  {
    m1 := BinOpCorrect(p, op, k, x, y, a, b, m2);
    Then(p, m, m2, m1);
    SetAbove(m2, Tmp(k), m1.regs[Tmp(k)], k);
    OnlyAboveTrans(m, m2, m1, n, k);
  }

  /** Two operands, computed left to right: the value of the left one survives the right one. */
  lemma {:induction false} BothCorrect(p: Code, off: nat, l: Expr, r: Expr, n: nat, slots: G.Slots, frames: seq<I.Frame>, m: Machine)
    returns (m1: Machine)
    requires var gl := G.Expr(l, n, slots); CodeAt(p, off, gl.code + G.Expr(r, gl.n, slots).code) && m.pc == off
    requires I.EvalExpr(l, frames).Ok? && I.EvalExpr(r, frames).Ok? && Agree(Flat(frames), m) && Slotted(Flat(frames).Keys, slots)
    ensures var gl := G.Expr(l, n, slots);
      var gr := G.Expr(r, gl.n, slots);
      && Reaches(p, m, m1) && m1.pc == off + |gl.code + gr.code| && OnlyAbove(m, m1, n)
      && Int(m1.regs, gl.v) == Some(I.EvalExpr(l, frames).value)
      && Int(m1.regs, gr.v) == Some(I.EvalExpr(r, frames).value) && Ranged(gr.v, n, gr.n)
    decreases if l < r then r else l, 1
  {
    var gl := G.Expr(l, n, slots);
    var gr := G.Expr(r, gl.n, slots);
    Split(p, off, gl.code, gr.code);
    var m2 := ExprCorrect(p, off, l, n, slots, frames, m);
    AgreeOnlyAbove(Flat(frames), m, m2, n);
    m1 := ExprCorrect(p, off + |gl.code|, r, gl.n, slots, frames, m2);
    Then(p, m, m2, m1);
    OnlyAboveTrans(m, m2, m1, n, gl.n);
    OnlyAboveSurvive(m2, m1, gl.n, gl.n);
    OperandSurvives(gl.v, m2, m1, gl.n);
  }

  // ----- conditions and loop bounds -----

  /** The float comparison and the integer one differ exactly under the guard. */
  lemma CompareAgree(op: CmpOp, a: int64, b: int64)
    ensures I.CompareF64(op, a, b) == CompareInt(op, a, b) <==> !I.Conflated(op, a, b)
  {
    if a <= b { ToF64Mono(a, b); } else { ToF64Mono(b, a); }
  }

  ghost predicate Decides(p: Code, off: nat, g: G.GenE, n: nat, b: bool, m: Machine, m1: Machine) {
    Reaches(p, m, m1) && m1.pc == off + |g.code| && OnlyAbove(m, m1, n) && Flag(m1.regs, g.v) == Some(b)
  }

  lemma NotCorrect(p: Code, off: nat, g: G.GenE, whole: G.GenE, n: nat, b: bool, m: Machine, m2: Machine) returns (m1: Machine)
    requires Decides(p, off, g, n, b, m, m2) && n <= g.n
    requires whole == G.GenE(g.code + [XorTrue(Tmp(g.n), g.v)], R(Tmp(g.n)), g.n + 1)
    requires off + |g.code| < |p| && p[off + |g.code|] == XorTrue(Tmp(g.n), g.v)
    ensures Decides(p, off, whole, n, !b, m, m1)
  {
    m1 := SetReg(m2, Tmp(g.n), I1(!b));
    DoXorTrue(p, m2, Tmp(g.n), g.v, b);
    Then(p, m, m2, m1);
    SetAbove(m2, Tmp(g.n), m1.regs[Tmp(g.n)], g.n);
    OnlyAboveTrans(m, m2, m1, n, g.n);
  }

  lemma {:induction false} CondCorrect(p: Code, off: nat, c: Cond, n: nat, slots: G.Slots, frames: seq<I.Frame>, m: Machine)
    returns (m1: Machine)
    requires CodeAt(p, off, G.Cond(c, n, slots).code) && m.pc == off
    requires Agree(Flat(frames), m) && Slotted(Flat(frames).Keys, slots)
    requires I.EvalCond(c, frames).Ok? && I.EvalCond(c, frames).value.notes == {}
    ensures Decides(p, off, G.Cond(c, n, slots), n, I.EvalCond(c, frames).value.b, m, m1)
    decreases c
  {
    match c
    case LitBool(_) =>
      Here(p, m);
      m1 := m;
    case Not(d) =>
      var g := G.Cond(d, n, slots);
      SplitLast(p, off, g.code, XorTrue(Tmp(g.n), g.v));
      var m2 := CondCorrect(p, off, d, n, slots, frames, m);
      m1 := NotCorrect(p, off, g, G.Cond(c, n, slots), n, I.EvalCond(d, frames).value.b, m, m2);
    case Cmp(op, l, r) =>
      m1 := CmpCorrect(p, off, op, l, r, n, slots, frames, m);
  }

  lemma CmpCorrect(p: Code, off: nat, op: CmpOp, l: Expr, r: Expr, n: nat, slots: G.Slots, frames: seq<I.Frame>, m: Machine)
    returns (m1: Machine)
    requires CodeAt(p, off, G.Cond(Cmp(op, l, r), n, slots).code) && m.pc == off
    requires Agree(Flat(frames), m) && Slotted(Flat(frames).Keys, slots)
    requires I.EvalCond(Cmp(op, l, r), frames).Ok? && I.EvalCond(Cmp(op, l, r), frames).value.notes == {}
    ensures Decides(p, off, G.Cond(Cmp(op, l, r), n, slots), n, I.EvalCond(Cmp(op, l, r), frames).value.b, m, m1)
  {
    var gl := G.Expr(l, n, slots);
    var gr := G.Expr(r, gl.n, slots);
    var a, b := I.EvalExpr(l, frames).value, I.EvalExpr(r, frames).value;
    SplitLast(p, off, gl.code + gr.code, Icmp(Tmp(gr.n), op, gl.v, gr.v));
    CompareAgree(op, a, b);
    var m2 := BothCorrect(p, off, l, r, n, slots, frames, m);
    m1 := IcmpCorrect(p, m, m2, n, gr.n, op, gl.v, gr.v, a, b);
  }

  lemma IcmpCorrect(p: Code, m: Machine, m2: Machine, n: nat, k: nat, op: CmpOp, x: Operand, y: Operand, a: int64, b: int64)
    returns (m1: Machine)
    requires Reaches(p, m, m2) && OnlyAbove(m, m2, n) && n <= k && At(p, m2, Icmp(Tmp(k), op, x, y))
    requires Int(m2.regs, x) == Some(a) && Int(m2.regs, y) == Some(b)
    ensures Reaches(p, m, m1) && m1.pc == m2.pc + 1 && OnlyAbove(m, m1, n) && Flag(m1.regs, R(Tmp(k))) == Some(CompareInt(op, a, b))
  {
    var d := Tmp(k);
    m1 := SetReg(m2, d, I1(CompareInt(op, a, b)));
    DoIcmp(p, m2, d, op, x, y, a, b);
    Then(p, m, m2, m1);
    SetAbove(m2, d, m1.regs[d], k);
    OnlyAboveTrans(m, m2, m1, n, k);
  }

  lemma {:induction false} AscendLength(lo: int, hi: int)
    requires lo <= hi ==> Fits(lo) && Fits(hi)
    ensures |I.Ascend(lo, hi)| == if lo > hi then 0 else hi - lo + 1
    decreases hi - lo
  {
    if lo <= hi { AscendLength(lo + 1, hi); }
  }

  lemma {:induction false} DescendLength(hi: int, lo: int)
    requires lo <= hi ==> Fits(lo) && Fits(hi)
    ensures |I.Descend(hi, lo)| == if lo > hi then 0 else hi - lo + 1
    decreases hi - lo
  {
    if lo <= hi { DescendLength(hi - 1, lo); }
  }

  /** The interpreter and the generated loop run over the same values exactly when the
      guard is off: not for an integer bound of 0 or more, nor for a range that starts
      elsewhere than at 0 or ends below it. */
  lemma IterationsAgree(bounds: I.Bounds)
    ensures bounds.Values() == bounds.CompiledValues() <==> !bounds.Differ()
  {
    match bounds
    case Count(n) =>
      AscendLength(0, n - 1);
      AscendLength(0, n);
    case FromTo(a, b) =>
      AscendLength(0, b);
      if a <= b { AscendLength(a, b); } else { DescendLength(a, b); }
      if bounds.Values() == bounds.CompiledValues() {
        assert bounds.Values()[0] == a && (b >= 0 ==> I.Ascend(0, b)[0] == 0);
      }
  }

  lemma BoundCorrect(p: Code, off: nat, it: Iter, n: nat, slots: G.Slots, frames: seq<I.Frame>, m: Machine)
    returns (m1: Machine)
    requires CodeAt(p, off, G.Bound(it, n, slots).code) && m.pc == off
    requires Agree(Flat(frames), m) && Slotted(Flat(frames).Keys, slots) && I.EvalIter(it, frames).Ok?
    ensures Computes(p, off, G.Bound(it, n, slots), n, I.EvalIter(it, frames).value.Last(), m, m1)
  {
    match it
    case Upto(e) => m1 := ExprCorrect(p, off, e, n, slots, frames, m);
    case Range(s, e) => m1 := BothCorrect(p, off, s, e, n, slots, frames, m);
  }
}
