/** `LlvmCodegen` on the integer fragment: what it appends to its output, as functions of
    the label counter and the names that have a stack slot. */
module Codegen {
  import opened Ast
  import opened Ir

  type Slots = map<Name, Reg>

  datatype GenE = GenE(code: Code, v: Operand, n: nat)

  datatype GenS = GenS(code: Code, n: nat, slots: Slots)

  function Instr(op: BinOp): ArithOp {
    match op
    case Add => AddNsw
    case Sub => SubNsw
    case Mul => MulNsw
    case Div => Sdiv
    case Mod => Srem
    case BitAnd => And
    case BitOr => Or
    case BitXor => Xor
    case Shl => ArithOp.Shl
    case Shr => Ashr
  }

  /** `compile_expr`: the code, the operand that holds the value, the next label number. */
  function Expr(e: Ast.Expr, n: nat, slots: Slots): (g: GenE)
    ensures n <= g.n
  {
    match e
    case LitInt(k) => GenE([], Imm(k), n)
    case Ident(x) =>
      if x in slots then GenE([Load(Val(x, n), slots[x])], R(Val(x, n)), n + 1) else GenE([], R(Raw(x)), n)
    case UnOp(op, inner) =>
      var g := Expr(inner, n, slots);
      var line := match op case Neg => Arith(Tmp(g.n), ArithOp.Sub, Imm(0), g.v)
                           case BitNot => Arith(Tmp(g.n), Xor, g.v, Imm(-1));
      GenE(g.code + [line], R(Tmp(g.n)), g.n + 1)
    case BinOp(op, l, r) =>
      var gl := Expr(l, n, slots);
      var gr := Expr(r, gl.n, slots);
      GenE(gl.code + gr.code + [Arith(Tmp(gr.n), Instr(op), gl.v, gr.v)], R(Tmp(gr.n)), gr.n + 1)
  }

  function Cond(c: Ast.Cond, n: nat, slots: Slots): (g: GenE)
    ensures n <= g.n
  {
    match c
    case LitBool(b) => GenE([], if b then True else False, n)
    case Not(d) =>
      var g := Cond(d, n, slots);
      GenE(g.code + [XorTrue(Tmp(g.n), g.v)], R(Tmp(g.n)), g.n + 1)
    case Cmp(op, l, r) =>
      var gl := Expr(l, n, slots);
      var gr := Expr(r, gl.n, slots);
      GenE(gl.code + gr.code + [Icmp(Tmp(gr.n), op, gl.v, gr.v)], R(Tmp(gr.n)), gr.n + 1)
  }

  /** The bound of a `for`: a range is compiled to its end, its start is computed and dropped. */
  function Bound(it: Iter, n: nat, slots: Slots): (g: GenE)
    ensures n <= g.n
  {
    match it
    case Upto(e) => Expr(e, n, slots)
    case Range(s, e) =>
      var gs := Expr(s, n, slots);
      var ge := Expr(e, gs.n, slots);
      GenE(gs.code + ge.code, ge.v, ge.n)
  }

  /** `compile_stmt`. */
  function Stmt(s: Ast.Stmt, n: nat, slots: Slots): (g: GenS)
    ensures n <= g.n
    decreases s, 1
  {
    match s
    case Decl(x, e, _) =>
      var g := Expr(e, n, slots);
      GenS(g.code + [Alloca(Ptr(x)), Store(g.v, Ptr(x))], g.n, slots[x := Ptr(x)])
    case Assign(x, e) =>
      var g := Expr(e, n, slots);
      if x in slots then GenS(g.code + [Store(g.v, slots[x])], g.n, slots)
      else GenS(g.code + [Alloca(Ptr(x)), Store(g.v, Ptr(x))], g.n, slots[x := Ptr(x)])
    case Print(e) =>
      var g := Expr(e, n, slots);
      GenS(g.code + [CallPrint(g.v)], g.n, slots)
    case If(c, thn, els) => IfStmt(c, thn, els, n, slots)
    case While(c, body) => WhileStmt(c, body, n, slots)
    case For(x, it, body) => ForStmt(x, it, body, n, slots)
  }

  function IfStmt(c: Ast.Cond, thn: seq<Ast.Stmt>, els: seq<Ast.Stmt>, n: nat, slots: Slots): (g: GenS)
    ensures n <= g.n
    decreases If(c, thn, els), 0
  {
    var gc := Cond(c, n + 3, slots);
    var gt := Block(thn, gc.n, slots);
    var ge := Block(els, gt.n, gt.slots);
    GenS(gc.code + [CondBr(gc.v, n, n + 1), LabelLine(n)] + gt.code + [Br(n + 2), LabelLine(n + 1)]
         + ge.code + [Br(n + 2), LabelLine(n + 2)], ge.n, ge.slots)
  }

  function WhileStmt(c: Ast.Cond, body: seq<Ast.Stmt>, n: nat, slots: Slots): (g: GenS)
    ensures n <= g.n
    decreases While(c, body), 0
  {
    var gc := Cond(c, n + 3, slots);
    var gb := Block(body, gc.n, slots);
    GenS([Br(n), LabelLine(n)] + gc.code + [CondBr(gc.v, n + 1, n + 2), LabelLine(n + 1)]
         + gb.code + [Br(n), LabelLine(n + 2)], gb.n, gb.slots)
  }

  function ForStmt(x: Name, it: Iter, body: seq<Ast.Stmt>, n: nat, slots: Slots): (g: GenS)
    ensures n <= g.n
    decreases For(x, it, body), 0
  {
    var gi := Bound(it, n + 4, slots);
    var v := Val(x, gi.n);
    var gb := Block(body, gi.n + 1, slots[x := Ptr(x)]);
    GenS(gi.code + ForHead(x, n, v, gi.v) + gb.code + ForTail(x, n, v, gb.n), gb.n + 1, gb.slots)
  }

  /** From the end of the bound to the first line of the body: the counter starts at 0 and
      the loop goes on while it is at most the bound. */
  function ForHead(x: Name, n: nat, v: Reg, bound: Operand): Code {
    [Br(n), LabelLine(n), Alloca(Ptr(x)), Store(Imm(0), Ptr(x)),
     Br(n + 1), LabelLine(n + 1), Load(v, Ptr(x)), Icmp(CmpOf(x), Le, R(v), bound),
     CondBr(R(CmpOf(x)), n + 2, n + 3), LabelLine(n + 2)]
  }

  /** The value that the head loaded, plus one, goes back to the slot. */
  function ForTail(x: Name, n: nat, v: Reg, k: nat): Code {
    [Arith(Tmp(k), ArithOp.Add, R(v), Imm(1)), Store(R(Tmp(k)), Ptr(x)), Br(n + 1), LabelLine(n + 3)]
  }

  lemma IfUnfold(c: Ast.Cond, thn: seq<Ast.Stmt>, els: seq<Ast.Stmt>, n: nat, slots: Slots, gc: GenE, gt: GenS, ge: GenS)
    requires gc == Cond(c, n + 3, slots) && gt == Block(thn, gc.n, slots) && ge == Block(els, gt.n, gt.slots)
    ensures IfStmt(c, thn, els, n, slots) ==
      GenS(gc.code + [CondBr(gc.v, n, n + 1), LabelLine(n)] + gt.code + [Br(n + 2), LabelLine(n + 1)]
           + ge.code + [Br(n + 2), LabelLine(n + 2)], ge.n, ge.slots)
  {}

  lemma WhileUnfold(c: Ast.Cond, body: seq<Ast.Stmt>, n: nat, slots: Slots, gc: GenE, gb: GenS)
    requires gc == Cond(c, n + 3, slots) && gb == Block(body, gc.n, slots)
    ensures WhileStmt(c, body, n, slots) ==
      GenS([Br(n), LabelLine(n)] + gc.code + [CondBr(gc.v, n + 1, n + 2), LabelLine(n + 1)]
           + gb.code + [Br(n), LabelLine(n + 2)], gb.n, gb.slots)
  {}

  lemma ForUnfold(x: Name, it: Iter, body: seq<Ast.Stmt>, n: nat, slots: Slots, gi: GenE, gb: GenS)
    requires gi == Bound(it, n + 4, slots) && gb == Block(body, gi.n + 1, slots[x := Ptr(x)])
    ensures var v := Val(x, gi.n);
      ForStmt(x, it, body, n, slots) == GenS(gi.code + ForHead(x, n, v, gi.v) + gb.code + ForTail(x, n, v, gb.n), gb.n + 1, gb.slots)
  {}

  function Block(b: seq<Ast.Stmt>, n: nat, slots: Slots): (g: GenS)
    ensures n <= g.n
    decreases b, 2
  {
    if b == [] then GenS([], n, slots)
    else
      var g := Stmt(b[0], n, slots);
      var h := Block(b[1..], g.n, g.slots);
      GenS(g.code + h.code, h.n, h.slots)
  }

  /** `compile_fn` for a `main` without parameters or result. */
  function Main(program: seq<Ast.Stmt>, n: nat): Code {
    Block(program, n, map[]).code + [RetVoid]
  }
}
