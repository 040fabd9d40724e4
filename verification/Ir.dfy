/** The instructions that the code generator emits for the fragment, one line of its
    output each, and the machine that runs them. */
module Ir {
  import opened Powers
  import opened Wrappers
  import opened Int64
  import opened Ast

  /** `%yk_n`, `%x.val_n`, `%x.ptr`, `%cmp_x` and the bare `%x` of an unknown name. */
  datatype Reg = Tmp(n: nat) | Val(x: Name, n: nat) | Ptr(x: Name) | CmpOf(x: Name) | Raw(x: Name)

  type Label = nat

  datatype Operand = Imm(n: int64) | True | False | R(r: Reg)

  datatype ArithOp = AddNsw | SubNsw | MulNsw | Sdiv | Srem | And | Or | Xor | Shl | Ashr | Add | Sub

  datatype Line =
    | LabelLine(l: Label)
    | Alloca(dst: Reg)
    | Store(v: Operand, ptr: Reg)
    | Load(dst: Reg, ptr: Reg)
    | Arith(dst: Reg, op: ArithOp, a: Operand, b: Operand)
    | Icmp(dst: Reg, cop: CmpOp, a: Operand, b: Operand)
    | XorTrue(dst: Reg, v: Operand)
    | Br(target: Label)
    | CondBr(c: Operand, yes: Label, no: Label)
    | CallPrint(v: Operand)
    | RetVoid

  type Code = seq<Line>

  // ----- the machine -----

  datatype Word = I64(n: int64) | I1(b: bool) | Addr(a: nat)

  datatype Machine = Machine(pc: nat, regs: map<Reg, Word>, mem: map<nat, int64>, next: nat, out: seq<int64>)

  function Start(): Machine { Machine(0, map[], map[], 0, []) }

  function Exact(x: int): Option<int64> { if Fits(x) then Some(x) else None }

  /** `add`, `sub` and `shl` wrap; a `nsw` overflow, an out-of-range shift, a zero divisor
      and the overflowing quotient are undefined and stop the machine. */
  function Compute(op: ArithOp, a: int64, b: int64): Option<int64> {
    match op
    case AddNsw => Exact(a + b)
    case SubNsw => Exact(a - b)
    case MulNsw => Exact(a * b)
    case Sdiv => if b == 0 then None else Exact(TruncDiv(a, b))
    case Srem => if b == 0 || (a == -TWO_63 && b == -1) then None else Exact(TruncMod(a, b))
    case And => Some(Bits64(AndBits, a, b))
    case Or => Some(Bits64(OrBits, a, b))
    case Xor => Some(Bits64(XorBits, a, b))
    case Shl => if 0 <= b < 64 then Some(Wrap(a * Pow2(b))) else None
    case Ashr => if 0 <= b < 64 then Exact(a / Pow2(b)) else None
    case Add => Some(Wrap(a + b))
    case Sub => Some(Wrap(a - b))
  }

  /** Value of an operand; an undefined register has none. */
  function Get(regs: map<Reg, Word>, v: Operand): Option<Word> {
    match v
    case Imm(n) => Some(I64(n))
    case True => Some(I1(true))
    case False => Some(I1(false))
    case R(r) => if r in regs then Some(regs[r]) else None
  }

  function Int(regs: map<Reg, Word>, v: Operand): Option<int64> {
    match Get(regs, v) case Some(I64(n)) => Some(n) case _ => None
  }

  function Flag(regs: map<Reg, Word>, v: Operand): Option<bool> {
    match Get(regs, v) case Some(I1(b)) => Some(b) case _ => None
  }

  function Pointer(regs: map<Reg, Word>, r: Reg): Option<nat> {
    match Get(regs, R(r)) case Some(Addr(a)) => Some(a) case _ => None
  }

  /** First line that carries the label, from a line on. */
  function FindLabel(p: Code, l: Label, from: nat): (r: Option<nat>)
    requires from <= |p|
    ensures r.Some? ==> from <= r.value < |p| && p[r.value] == LabelLine(l)
    ensures r.None? ==> forall i :: from <= i < |p| ==> p[i] != LabelLine(l)
    decreases |p| - from
  {
    if from == |p| then None
    else if p[from] == LabelLine(l) then Some(from)
    else FindLabel(p, l, from + 1)
  }

  function Jump(p: Code, m: Machine, l: Label): Option<Machine> {
    match FindLabel(p, l, 0)
    case Some(i) => Some(m.(pc := i + 1))
    case None => None
  }

  function SetReg(m: Machine, r: Reg, w: Word): Machine {
    m.(pc := m.pc + 1, regs := m.regs[r := w])
  }

  /** One instruction. A run may not fall into a label: every block ends in a branch. */
  function Step(p: Code, m: Machine): Option<Machine> {
    if m.pc >= |p| then None
    else
      match p[m.pc]
      case LabelLine(_) => None
      case Alloca(dst) => Some(SetReg(m, dst, Addr(m.next)).(next := m.next + 1))
      case Store(v, ptr) =>
        (match (Int(m.regs, v), Pointer(m.regs, ptr))
         case (Some(n), Some(a)) => Some(m.(pc := m.pc + 1, mem := m.mem[a := n]))
         case _ => None)
      case Load(dst, ptr) =>
        (match Pointer(m.regs, ptr)
         case Some(a) => if a in m.mem then Some(SetReg(m, dst, I64(m.mem[a]))) else None
         case None => None)
      case Arith(dst, op, a, b) =>
        (match (Int(m.regs, a), Int(m.regs, b))
         case (Some(x), Some(y)) =>
           (match Compute(op, x, y) case Some(z) => Some(SetReg(m, dst, I64(z))) case None => None)
         case _ => None)
      case Icmp(dst, op, a, b) =>
        (match (Int(m.regs, a), Int(m.regs, b))
         case (Some(x), Some(y)) => Some(SetReg(m, dst, I1(CompareInt(op, x, y))))
         case _ => None)
      case XorTrue(dst, v) =>
        (match Flag(m.regs, v) case Some(b) => Some(SetReg(m, dst, I1(!b))) case None => None)
      case Br(l) => Jump(p, m, l)
      case CondBr(c, yes, no) =>
        (match Flag(m.regs, c) case Some(b) => Jump(p, m, if b then yes else no) case None => None)
      case CallPrint(v) =>
        (match Int(m.regs, v) case Some(n) => Some(m.(pc := m.pc + 1, out := m.out + [n])) case None => None)
      case RetVoid => None
  }

  // ----- runs -----

  predicate StepsAt(p: Code, t: seq<Machine>, i: nat)
    requires i + 1 < |t|
  {
    Step(p, t[i]) == Some(t[i + 1])
  }

  /** A run: consecutive states are one instruction apart. */
  ghost predicate Run(p: Code, t: seq<Machine>) {
    t != [] && forall i: nat {:trigger StepsAt(p, t, i)} :: i + 1 < |t| ==> StepsAt(p, t, i)
  }

  ghost predicate RunBetween(p: Code, t: seq<Machine>, m: Machine, m1: Machine) {
    Run(p, t) && t[0] == m && t[|t| - 1] == m1
  }

  ghost predicate Reaches(p: Code, m: Machine, m1: Machine) {
    exists t: seq<Machine> :: RunBetween(p, t, m, m1)
  }

  lemma Here(p: Code, m: Machine)
    ensures Reaches(p, m, m)
  {
    assert RunBetween(p, [m], m, m);
  }

  lemma One(p: Code, m: Machine, m1: Machine)
    requires Step(p, m) == Some(m1)
    ensures Reaches(p, m, m1)
  {
    assert RunBetween(p, [m, m1], m, m1);
  }

  lemma Then(p: Code, m: Machine, m1: Machine, m2: Machine)
    requires Reaches(p, m, m1) && Reaches(p, m1, m2)
    ensures Reaches(p, m, m2)
  {
    var a: seq<Machine> :| RunBetween(p, a, m, m1);
    var b: seq<Machine> :| RunBetween(p, b, m1, m2);
    var t := a + b[1..];
    forall i: nat | i + 1 < |t| ensures StepsAt(p, t, i) {
      if i + 1 < |a| { assert StepsAt(p, a, i); } else { assert StepsAt(p, b, i + 1 - |a|); }
    }
    assert RunBetween(p, t, m, m2);
  }

  predicate Returned(p: Code, m: Machine) { m.pc < |p| && p[m.pc] == RetVoid }
}
