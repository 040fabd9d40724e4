/** Control flow of the emitted code: basic blocks are well formed, every branch has its
    target, and on every path a register is defined before it is used. */
module CodegenPaths {
  import opened Wrappers
  import opened Ast
  import opened Ir
  import G = Codegen
  import S = Simulation

  type Regs = set<Reg>

  function OfOperand(v: Operand): Regs { if v.R? then {v.r} else {} }

  function Uses(line: Line): Regs {
    match line
    case Store(v, p) => OfOperand(v) + {p}
    case Load(_, p) => {p}
    case Arith(_, _, a, b) => OfOperand(a) + OfOperand(b)
    case Icmp(_, _, a, b) => OfOperand(a) + OfOperand(b)
    case XorTrue(_, v) => OfOperand(v)
    case CondBr(c, _, _) => OfOperand(c)
    case CallPrint(v) => OfOperand(v)
    case _ => {}
  }

  function Sets(line: Line): Regs {
    match line
    case Alloca(d) => {d}
    case Load(d, _) => {d}
    case Arith(d, _, _, _) => {d}
    case Icmp(d, _, _, _) => {d}
    case XorTrue(d, _) => {d}
    case _ => {}
  }

  // ----- paths, without regard to the values of conditions -----

  predicate LeadsTo(p: Code, i: nat, j: nat)
    requires i < |p|
  {
    match p[i]
    case LabelLine(_) => false
    case RetVoid => false
    case Br(l) => 0 < j <= |p| && p[j - 1] == LabelLine(l)
    case CondBr(_, yes, no) => 0 < j <= |p| && (p[j - 1] == LabelLine(yes) || p[j - 1] == LabelLine(no))
    case _ => j == i + 1
  }

  predicate Path(p: Code, t: seq<nat>) {
    t != [] && t[0] == 0 && (forall k :: 0 <= k < |t| - 1 ==> t[k] < |p| && LeadsTo(p, t[k], t[k + 1]))
  }

  /** Registers set by the lines before the k-th of a path. */
  function SetOn(p: Code, t: seq<nat>, k: nat): Regs
    requires k <= |t| && forall j :: 0 <= j < k ==> t[j] < |p|
  {
    if k == 0 then {} else SetOn(p, t, k - 1) + Sets(p[t[k - 1]])
  }

  function Targets(line: Line): set<Label> {
    match line case Br(l) => {l} case CondBr(_, yes, no) => {yes, no} case _ => {}
  }

  predicate HasLabel(c: Code, l: Label) { exists i :: 0 <= i < |c| && c[i] == LabelLine(l) }

  /** Wherever a path goes, it stays in the code, is never at a label without a branch to it, uses
      only registers that it has set, and finds the label of every target of a branch, whichever way
      the condition goes. */
  ghost predicate SafeAt(p: Code, t: seq<nat>, k: nat)
    requires k < |t| && forall j :: 0 <= j < k ==> t[j] < |p|
  {
    t[k] < |p| && !p[t[k]].LabelLine? && Uses(p[t[k]]) <= SetOn(p, t, k)
    && (forall l :: l in Targets(p[t[k]]) ==> HasLabel(p, l))
    && (p[t[k]] != RetVoid && Targets(p[t[k]]) == {} ==> t[k] + 1 < |p|)
  }

  // ----- what is known to be set at each line; None where no control arrives -----

  type Known = Option<Regs>
  type Labels = map<Label, Regs>

  ghost predicate LineFlow(line: Line, a: Known, b: Known, labels: Labels) {
    match line
    case LabelLine(l) => a == None && l in labels && b == Some(labels[l])
    case Br(l) => a.Some? && l in labels && labels[l] <= a.value && b == None
    case CondBr(_, yes, no) => a.Some? && Uses(line) <= a.value && b == None
      && yes in labels && no in labels && labels[yes] <= a.value && labels[no] <= a.value
    case RetVoid => a.Some? && b == None
    case _ => a.Some? && b.Some? && Uses(line) <= a.value && b.value <= a.value + Sets(line)
  }

  ghost predicate FlowAt(c: Code, ks: seq<Known>, labels: Labels, i: nat)
    requires |ks| == |c| + 1 && i < |c|
  {
    LineFlow(c[i], ks[i], ks[i + 1], labels)
  }

  ghost predicate Flow(c: Code, ks: seq<Known>, labels: Labels) {
    |ks| == |c| + 1 && forall i: nat {:trigger FlowAt(c, ks, labels, i)} :: i < |c| ==> FlowAt(c, ks, labels, i)
  }

  lemma FlowAppend(c: Code, ks: seq<Known>, d: Code, js: seq<Known>, labels: Labels)
    requires Flow(c, ks, labels) && Flow(d, js, labels) && ks[|c|] == js[0]
    ensures Flow(c + d, ks + js[1..], labels)
  {
    var all := ks + js[1..];
    forall i: nat | i < |c + d| ensures FlowAt(c + d, all, labels, i) {
      if i < |c| {
        assert FlowAt(c, ks, labels, i);
      } else {
        assert FlowAt(d, js, labels, i - |c|);
        assert all[i] == js[i - |c|];
      }
    }
  }

  /** More labels do no harm. */
  lemma FlowMore(c: Code, ks: seq<Known>, labels: Labels, more: Labels)
    requires Flow(c, ks, labels) && forall l :: l in labels ==> l in more && more[l] == labels[l]
    ensures Flow(c, ks, more)
  {
    forall i: nat | i < |c| ensures FlowAt(c, ks, more, i) {
      assert FlowAt(c, ks, labels, i);
    }
  }

  /** One line. */
  lemma FlowLine(line: Line, a: Known, b: Known, labels: Labels)
    requires LineFlow(line, a, b, labels)
    ensures Flow([line], [a, b], labels)
  {
  }

  ghost predicate Connects(c: Code, ks: seq<Known>, labels: Labels, a: Known, b: Known) {
    Flow(c, ks, labels) && ks[0] == a && ks[|c|] == b
  }

  /** Entered with a, the code ends with b; it contains the labels of `ls`. */
  ghost predicate Part(c: Code, labels: Labels, ls: set<Label>, a: Known, b: Known) {
    (exists ks :: Connects(c, ks, labels, a, b)) && forall l {:trigger HasLabel(c, l)} :: l in ls ==> HasLabel(c, l)
  }

  lemma PartNothing(labels: Labels, a: Known)
    ensures Part([], labels, {}, a, a)
  {
    assert Connects([], [a], labels, a, a);
  }

  lemma PartAppend(c: Code, e: Code, labels: Labels, ls: set<Label>, ms: set<Label>, a: Known, b: Known, d: Known)
    requires Part(c, labels, ls, a, b) && Part(e, labels, ms, b, d)
    ensures Part(c + e, labels, ls + ms, a, d)
  {
    var ks :| Connects(c, ks, labels, a, b);
    var js :| Connects(e, js, labels, b, d);
    FlowAppend(c, ks, e, js, labels);
    assert Connects(c + e, ks + js[1..], labels, a, d);
    forall l | l in ls + ms ensures HasLabel(c + e, l) {
      if l in ls {
        assert HasLabel(c, l);
        var i :| 0 <= i < |c| && c[i] == LabelLine(l);
        assert (c + e)[i] == LabelLine(l);
      } else {
        assert HasLabel(e, l);
        var i :| 0 <= i < |e| && e[i] == LabelLine(l);
        assert (c + e)[|c| + i] == LabelLine(l);
      }
    }
  }

  function LabelsOfLine(line: Line): set<Label> { if line.LabelLine? then {line.l} else {} }

  lemma PartLine(c: Code, line: Line, labels: Labels, ls: set<Label>, a: Known, b: Known, d: Known)
    requires Part(c, labels, ls, a, b) && LineFlow(line, b, d, labels)
    ensures Part(c + [line], labels, ls + LabelsOfLine(line), a, d)
  {
    FlowLine(line, b, d, labels);
    assert Connects([line], [b, d], labels, b, d);
    if line.LabelLine? { assert [line][0] == LabelLine(line.l); }
    PartAppend(c, [line], labels, ls, LabelsOfLine(line), a, b, d);
  }

  lemma PartMore(c: Code, labels: Labels, more: Labels, ls: set<Label>, a: Known, b: Known)
    requires Part(c, labels, ls, a, b) && Extends(more, labels)
    ensures Part(c, more, ls, a, b)
  {
    var ks :| Connects(c, ks, labels, a, b);
    FlowMore(c, ks, labels, more);
    assert Connects(c, ks, more, a, b);
  }

  /** The jump that ends a block and the label of the next one. */
  lemma PartClose(c: Code, line: Line, l: Label, labels: Labels, ls: set<Label>, a: Known, b: Known)
    requires Part(c, labels, ls, a, b) && LineFlow(line, b, None, labels) && !line.LabelLine? && l in labels
    ensures Part(c + [line, LabelLine(l)], labels, ls + {l}, a, Some(labels[l]))
  {
    PartLine(c, line, labels, ls, a, b, None);
    PartLine(c + [line], LabelLine(l), labels, ls + {}, a, None, Some(labels[l]));
    assert c + [line] + [LabelLine(l)] == c + [line, LabelLine(l)] && ls + {} + {l} == ls + {l};
  }

  // ----- the code of each construct -----

  /** The slots of the visible variables are set. */
  ghost predicate PtrsIn(scope: set<Name>, d: Regs) { forall x :: x in scope ==> Ptr(x) in d }

  lemma {:induction false} ExprPart(e: Expr, n: nat, slots: G.Slots, scope: set<Name>, d: Regs, labels: Labels) returns (d1: Regs)
    requires ClosedExpr(e, scope) && S.Slotted(scope, slots) && PtrsIn(scope, d)
    ensures var g := G.Expr(e, n, slots); d <= d1 && OfOperand(g.v) <= d1 && Part(g.code, labels, {}, Some(d), Some(d1))
    decreases e, 0
  {
    match e
    case LitInt(_) =>
      d1 := d;
      PartNothing(labels, Some(d));
    case Ident(x) =>
      d1 := d + {Val(x, n)};
      PartNothing(labels, Some(d));
      PartLine([], Load(Val(x, n), Ptr(x)), labels, {}, Some(d), Some(d), Some(d1));
      assert [] + [Load(Val(x, n), Ptr(x))] == [Load(Val(x, n), Ptr(x))];
    case UnOp(op, inner) =>
      var g := G.Expr(inner, n, slots);
      var d2 := ExprPart(inner, n, slots, scope, d, labels);
      var line := if op.Neg? then Arith(Tmp(g.n), ArithOp.Sub, Imm(0), g.v) else Arith(Tmp(g.n), Xor, g.v, Imm(-1));
      d1 := d2 + {Tmp(g.n)};
      PartLine(g.code, line, labels, {}, Some(d), Some(d2), Some(d1));
    case BinOp(op, l, r) =>
      var gl := G.Expr(l, n, slots);
      var gr := G.Expr(r, gl.n, slots);
      var d2 := PairPart(l, r, n, slots, scope, d, labels);
      d1 := d2 + {Tmp(gr.n)};
      PartLine(gl.code + gr.code, Arith(Tmp(gr.n), G.Instr(op), gl.v, gr.v), labels, {}, Some(d), Some(d2), Some(d1));
  }

  lemma {:induction false} PairPart(l: Expr, r: Expr, n: nat, slots: G.Slots, scope: set<Name>, d: Regs, labels: Labels) returns (d1: Regs)
    requires ClosedExpr(l, scope) && ClosedExpr(r, scope) && S.Slotted(scope, slots) && PtrsIn(scope, d)
    ensures var gl := G.Expr(l, n, slots);
      var gr := G.Expr(r, gl.n, slots);
      d <= d1 && OfOperand(gl.v) <= d1 && OfOperand(gr.v) <= d1 && Part(gl.code + gr.code, labels, {}, Some(d), Some(d1))
    decreases if l < r then r else l, 1
  {
    var gl := G.Expr(l, n, slots);
    var d2 := ExprPart(l, n, slots, scope, d, labels);
    d1 := ExprPart(r, gl.n, slots, scope, d2, labels);
    PartAppend(gl.code, G.Expr(r, gl.n, slots).code, labels, {}, {}, Some(d), Some(d2), Some(d1));
  }

  lemma {:induction false} CondPart(c: Cond, n: nat, slots: G.Slots, scope: set<Name>, d: Regs, labels: Labels) returns (d1: Regs)
    requires ClosedCond(c, scope) && S.Slotted(scope, slots) && PtrsIn(scope, d)
    ensures var g := G.Cond(c, n, slots); d <= d1 && OfOperand(g.v) <= d1 && Part(g.code, labels, {}, Some(d), Some(d1))
    decreases c
  {
    match c
    case LitBool(_) =>
      d1 := d;
      PartNothing(labels, Some(d));
    case Not(inner) =>
      var g := G.Cond(inner, n, slots);
      var d2 := CondPart(inner, n, slots, scope, d, labels);
      d1 := d2 + {Tmp(g.n)};
      PartLine(g.code, XorTrue(Tmp(g.n), g.v), labels, {}, Some(d), Some(d2), Some(d1));
    case Cmp(op, l, r) =>
      var gl := G.Expr(l, n, slots);
      var gr := G.Expr(r, gl.n, slots);
      var d2 := PairPart(l, r, n, slots, scope, d, labels);
      d1 := d2 + {Tmp(gr.n)};
      PartLine(gl.code + gr.code, Icmp(Tmp(gr.n), op, gl.v, gr.v), labels, {}, Some(d), Some(d2), Some(d1));
  }

  lemma BoundPart(it: Iter, n: nat, slots: G.Slots, scope: set<Name>, d: Regs, labels: Labels) returns (d1: Regs)
    requires ClosedIter(it, scope) && S.Slotted(scope, slots) && PtrsIn(scope, d)
    ensures var g := G.Bound(it, n, slots); d <= d1 && OfOperand(g.v) <= d1 && Part(g.code, labels, {}, Some(d), Some(d1))
  {
    match it
    case Upto(e) => d1 := ExprPart(e, n, slots, scope, d, labels);
    case Range(s, e) => d1 := PairPart(s, e, n, slots, scope, d, labels);
  }

  /** The labels of a piece come from its own interval of the counter. */
  ghost predicate Numbered(labels: Labels, n: nat, n1: nat) { forall l :: l in labels ==> n <= l < n1 }

  function NewPtr(s: Stmt): Regs { if s.Decl? then {Ptr(s.name)} else {} }

  lemma DeclPart(x: Name, e: Expr, n: nat, slots: G.Slots, scope: set<Name>, d: Regs)
    requires ClosedExpr(e, scope) && S.Slotted(scope, slots) && PtrsIn(scope, d)
    ensures var g := G.Expr(e, n, slots); Part(g.code + [Alloca(Ptr(x)), Store(g.v, Ptr(x))], map[], {}, Some(d), Some(d + {Ptr(x)}))
  {
    var g := G.Expr(e, n, slots);
    var d1 := ExprPart(e, n, slots, scope, d, map[]);
    SlotPart(g.code, g.v, x, d, d1);
  }

  lemma SlotPart(c: Code, v: Operand, x: Name, d: Regs, d1: Regs)
    requires Part(c, map[], {}, Some(d), Some(d1)) && d <= d1 && OfOperand(v) <= d1
    ensures Part(c + [Alloca(Ptr(x)), Store(v, Ptr(x))], map[], {}, Some(d), Some(d + {Ptr(x)}))
  {
    var a := c + [Alloca(Ptr(x))];
    PartLine(c, Alloca(Ptr(x)), map[], {}, Some(d), Some(d1), Some(d1 + {Ptr(x)}));
    PartLine(a, Store(v, Ptr(x)), map[], {} + {}, Some(d), Some(d1 + {Ptr(x)}), Some(d + {Ptr(x)}));
    assert a + [Store(v, Ptr(x))] == c + [Alloca(Ptr(x)), Store(v, Ptr(x))];
  }

  lemma AssignPart(x: Name, e: Expr, n: nat, slots: G.Slots, scope: set<Name>, d: Regs)
    requires ClosedExpr(e, scope) && x in scope && S.Slotted(scope, slots) && PtrsIn(scope, d)
    ensures var g := G.Expr(e, n, slots); Part(g.code + [Store(g.v, Ptr(x))], map[], {}, Some(d), Some(d))
  {
    var g := G.Expr(e, n, slots);
    var d1 := ExprPart(e, n, slots, scope, d, map[]);
    PartLine(g.code, Store(g.v, Ptr(x)), map[], {}, Some(d), Some(d1), Some(d));
  }

  lemma PrintPart(e: Expr, n: nat, slots: G.Slots, scope: set<Name>, d: Regs)
    requires ClosedExpr(e, scope) && S.Slotted(scope, slots) && PtrsIn(scope, d)
    ensures var g := G.Expr(e, n, slots); Part(g.code + [CallPrint(g.v)], map[], {}, Some(d), Some(d))
  {
    var g := G.Expr(e, n, slots);
    var d1 := ExprPart(e, n, slots, scope, d, map[]);
    PartLine(g.code, CallPrint(g.v), map[], {}, Some(d), Some(d1), Some(d));
  }

  lemma {:induction false} StmtPart(s: Stmt, n: nat, slots: G.Slots, scope: set<Name>, d: Regs) returns (labels: Labels)
    requires Closed(s, scope) && S.Slotted(scope, slots) && PtrsIn(scope, d)
    ensures var g := G.Stmt(s, n, slots);
      Numbered(labels, n, g.n) && Part(g.code, labels, labels.Keys, Some(d), Some(d + NewPtr(s)))
    ensures S.Slotted(ScopeAfter(s, scope), G.Stmt(s, n, slots).slots)
    decreases s, 1
  {
    match s
    case Decl(x, e, _) =>
      labels := map[];
      DeclPart(x, e, n, slots, scope, d);
    case Assign(x, e) =>
      labels := map[];
      AssignPart(x, e, n, slots, scope, d);
      assert d + NewPtr(s) == d;
    case Print(e) =>
      labels := map[];
      PrintPart(e, n, slots, scope, d);
      assert d + NewPtr(s) == d;
    case If(c, thn, els) =>
      labels := IfPart(c, thn, els, n, slots, scope, d);
      assert d + NewPtr(s) == d;
    case While(c, body) =>
      labels := WhilePart(c, body, n, slots, scope, d);
      assert d + NewPtr(s) == d;
    case For(x, it, body) =>
      labels := ForPart(x, it, body, n, slots, scope, d);
      assert d + NewPtr(s) == d;
  }

  lemma IfShape(a: Code, v: Operand, b: Code, c: Code, n: nat, labels: Labels, lb: set<Label>, lc: set<Label>,
                d: Regs, da: Regs, db: Regs, dc: Regs)
    requires n in labels && n + 1 in labels && n + 2 in labels && labels[n] == d && labels[n + 1] == d && labels[n + 2] == d
    requires Part(a, labels, {}, Some(d), Some(da)) && OfOperand(v) <= da && d <= da
    requires Part(b, labels, lb, Some(d), Some(db)) && d <= db && Part(c, labels, lc, Some(d), Some(dc)) && d <= dc
    ensures Part(a + [CondBr(v, n, n + 1), LabelLine(n)] + b + [Br(n + 2), LabelLine(n + 1)] + c + [Br(n + 2), LabelLine(n + 2)],
                 labels, {} + {n} + lb + {n + 1} + lc + {n + 2}, Some(d), Some(d))
  {
    PartClose(a, CondBr(v, n, n + 1), n, labels, {}, Some(d), Some(da));
    var a1 := a + [CondBr(v, n, n + 1), LabelLine(n)];
    PartAppend(a1, b, labels, {} + {n}, lb, Some(d), Some(d), Some(db));
    PartClose(a1 + b, Br(n + 2), n + 1, labels, {} + {n} + lb, Some(d), Some(db));
    var b1 := a1 + b + [Br(n + 2), LabelLine(n + 1)];
    PartAppend(b1, c, labels, {} + {n} + lb + {n + 1}, lc, Some(d), Some(d), Some(dc));
    PartClose(b1 + c, Br(n + 2), n + 2, labels, {} + {n} + lb + {n + 1} + lc, Some(d), Some(dc));
  }

  lemma WhileShape(a: Code, v: Operand, b: Code, n: nat, labels: Labels, lb: set<Label>, d: Regs, da: Regs, db: Regs)
    requires n in labels && n + 1 in labels && n + 2 in labels && labels[n] == d && labels[n + 1] == d && labels[n + 2] == d
    requires Part(a, labels, {}, Some(d), Some(da)) && OfOperand(v) <= da && d <= da
    requires Part(b, labels, lb, Some(d), Some(db)) && d <= db
    ensures Part([Br(n), LabelLine(n)] + a + [CondBr(v, n + 1, n + 2), LabelLine(n + 1)] + b + [Br(n), LabelLine(n + 2)],
                 labels, {} + {n} + {} + {n + 1} + lb + {n + 2}, Some(d), Some(d))
  {
    PartNothing(labels, Some(d));
    PartClose([], Br(n), n, labels, {}, Some(d), Some(d));
    var h := [Br(n), LabelLine(n)];
    assert [] + h == h;
    PartAppend(h, a, labels, {} + {n}, {}, Some(d), Some(d), Some(da));
    PartClose(h + a, CondBr(v, n + 1, n + 2), n + 1, labels, {} + {n} + {}, Some(d), Some(da));
    var a1 := h + a + [CondBr(v, n + 1, n + 2), LabelLine(n + 1)];
    PartAppend(a1, b, labels, {} + {n} + {} + {n + 1}, lb, Some(d), Some(d), Some(db));
    PartClose(a1 + b, Br(n), n + 2, labels, {} + {n} + {} + {n + 1} + lb, Some(d), Some(db));
  }

  ghost predicate Extends(more: Labels, labels: Labels) { forall l :: l in labels ==> l in more && more[l] == labels[l] }

  /** The labels of two pieces and the first three numbers of a construct: nothing clashes. */
  lemma JoinLabels(l1: Labels, l2: Labels, n: nat, a: nat, b: nat, c: nat, d: Regs) returns (labels: Labels)
    requires n + 3 <= a <= b <= c && Numbered(l1, a, b) && Numbered(l2, b, c)
    ensures Extends(labels, l1) && Extends(labels, l2) && Numbered(labels, n, c)
    ensures labels.Keys == l1.Keys + l2.Keys + {n, n + 1, n + 2}
    ensures labels[n] == d && labels[n + 1] == d && labels[n + 2] == d
  {
    labels := (l1 + l2)[n := d][n + 1 := d][n + 2 := d];
  }

  lemma {:induction false} IfPart(c: Cond, thn: seq<Stmt>, els: seq<Stmt>, n: nat, slots: G.Slots, scope: set<Name>, d: Regs)
    returns (labels: Labels)
    requires ClosedCond(c, scope) && ClosedBlock(thn, scope) && ClosedBlock(els, scope) && S.Slotted(scope, slots) && PtrsIn(scope, d)
    ensures var g := G.IfStmt(c, thn, els, n, slots);
      Numbered(labels, n, g.n) && Part(g.code, labels, labels.Keys, Some(d), Some(d)) && S.Slotted(scope, g.slots)
    decreases If(c, thn, els), 0
  {
    var gc := G.Cond(c, n + 3, slots);
    var gt := G.Block(thn, gc.n, slots);
    var ge := G.Block(els, gt.n, gt.slots);
    var lt, dt := BlockPart(thn, gc.n, slots, scope, d);
    var le, de := BlockPart(els, gt.n, gt.slots, scope, d);
    var dc := CondPart(c, n + 3, slots, scope, d, map[]);
    labels := IfWhole(gc, gt, ge, n, lt, le, d, dc, dt, de);
    G.IfUnfold(c, thn, els, n, slots, gc, gt, ge);
  }

  lemma IfWhole(gc: G.GenE, gt: G.GenS, ge: G.GenS, n: nat, lt: Labels, le: Labels, d: Regs, dc: Regs, dt: Regs, de: Regs)
    returns (labels: Labels)
    requires n + 3 <= gc.n <= gt.n <= ge.n && Numbered(lt, gc.n, gt.n) && Numbered(le, gt.n, ge.n)
    requires Part(gc.code, map[], {}, Some(d), Some(dc)) && OfOperand(gc.v) <= dc && d <= dc && d <= dt && d <= de
    requires Part(gt.code, lt, lt.Keys, Some(d), Some(dt)) && Part(ge.code, le, le.Keys, Some(d), Some(de))
    ensures Numbered(labels, n, ge.n)
    ensures Part(gc.code + [CondBr(gc.v, n, n + 1), LabelLine(n)] + gt.code + [Br(n + 2), LabelLine(n + 1)]
                 + ge.code + [Br(n + 2), LabelLine(n + 2)], labels, labels.Keys, Some(d), Some(d))
  {
    labels := JoinLabels(lt, le, n, gc.n, gt.n, ge.n, d);
    PartMore(gc.code, map[], labels, {}, Some(d), Some(dc));
    PartMore(gt.code, lt, labels, lt.Keys, Some(d), Some(dt));
    PartMore(ge.code, le, labels, le.Keys, Some(d), Some(de));
    IfShape(gc.code, gc.v, gt.code, ge.code, n, labels, lt.Keys, le.Keys, d, dc, dt, de);
    assert labels.Keys == {} + {n} + lt.Keys + {n + 1} + le.Keys + {n + 2};
  }

  lemma {:induction false} WhilePart(c: Cond, body: seq<Stmt>, n: nat, slots: G.Slots, scope: set<Name>, d: Regs) returns (labels: Labels)
    requires ClosedCond(c, scope) && ClosedBlock(body, scope) && S.Slotted(scope, slots) && PtrsIn(scope, d)
    ensures var g := G.WhileStmt(c, body, n, slots);
      Numbered(labels, n, g.n) && Part(g.code, labels, labels.Keys, Some(d), Some(d)) && S.Slotted(scope, g.slots)
    decreases While(c, body), 0
  {
    var gc := G.Cond(c, n + 3, slots);
    var gb := G.Block(body, gc.n, slots);
    var lb, db := BlockPart(body, gc.n, slots, scope, d);
    var dc := CondPart(c, n + 3, slots, scope, d, map[]);
    labels := WhileWhole(gc, gb, n, lb, d, dc, db);
    G.WhileUnfold(c, body, n, slots, gc, gb);
  }

  lemma WhileWhole(gc: G.GenE, gb: G.GenS, n: nat, lb: Labels, d: Regs, dc: Regs, db: Regs) returns (labels: Labels)
    requires n + 3 <= gc.n <= gb.n && Numbered(lb, gc.n, gb.n)
    requires Part(gc.code, map[], {}, Some(d), Some(dc)) && OfOperand(gc.v) <= dc && d <= dc && d <= db
    requires Part(gb.code, lb, lb.Keys, Some(d), Some(db))
    ensures Numbered(labels, n, gb.n)
    ensures Part([Br(n), LabelLine(n)] + gc.code + [CondBr(gc.v, n + 1, n + 2), LabelLine(n + 1)]
                 + gb.code + [Br(n), LabelLine(n + 2)], labels, labels.Keys, Some(d), Some(d))
  {
    labels := JoinLabels(lb, map[], n, gc.n, gb.n, gb.n, d);
    PartMore(gc.code, map[], labels, {}, Some(d), Some(dc));
    PartMore(gb.code, lb, labels, lb.Keys, Some(d), Some(db));
    WhileShape(gc.code, gc.v, gb.code, n, labels, lb.Keys, d, dc, db);
    assert labels.Keys == {} + {n} + {} + {n + 1} + lb.Keys + {n + 2};
  }

  function EnterLines(x: Name, n: nat): Code {
    [Br(n), LabelLine(n), Alloca(Ptr(x)), Store(Imm(0), Ptr(x)), Br(n + 1), LabelLine(n + 1)]
  }

  lemma EnterPart(x: Name, n: nat, d: Regs, labels: Labels)
    requires n in labels && n + 1 in labels && labels[n] == d && labels[n + 1] == d + {Ptr(x)}
    ensures Part(EnterLines(x, n), labels, {n, n + 1}, Some(d), Some(d + {Ptr(x)}))
  {
    var e := d + {Ptr(x)};
    PartNothing(labels, Some(d));
    PartClose([], Br(n), n, labels, {}, Some(d), Some(d));
    var a := [] + [Br(n), LabelLine(n)];
    PartLine(a, Alloca(Ptr(x)), labels, {} + {n}, Some(d), Some(d), Some(e));
    var b := a + [Alloca(Ptr(x))];
    PartLine(b, Store(Imm(0), Ptr(x)), labels, {} + {n} + {}, Some(d), Some(e), Some(e));
    var c := b + [Store(Imm(0), Ptr(x))];
    PartClose(c, Br(n + 1), n + 1, labels, {} + {n} + {} + {}, Some(d), Some(e));
    assert EnterLines(x, n) == c + [Br(n + 1), LabelLine(n + 1)];
    assert {n, n + 1} == {} + {n} + {} + {} + {n + 1};
  }

  function TestLines(x: Name, n: nat, v: Reg, bound: Operand): Code {
    [Load(v, Ptr(x)), Icmp(CmpOf(x), Le, R(v), bound), CondBr(R(CmpOf(x)), n + 2, n + 3), LabelLine(n + 2)]
  }

  lemma TestPart(x: Name, n: nat, v: Reg, bound: Operand, e: Regs, labels: Labels)
    requires Ptr(x) in e && OfOperand(bound) <= e && n + 2 in labels && n + 3 in labels
    requires labels[n + 2] == e + {v} + {CmpOf(x)} && labels[n + 3] <= e
    ensures Part(TestLines(x, n, v, bound), labels, {n + 2}, Some(e), Some(labels[n + 2]))
  {
    PartNothing(labels, Some(e));
    PartLine([], Load(v, Ptr(x)), labels, {}, Some(e), Some(e), Some(e + {v}));
    var a := [] + [Load(v, Ptr(x))];
    PartLine(a, Icmp(CmpOf(x), Le, R(v), bound), labels, {} + {}, Some(e), Some(e + {v}), Some(labels[n + 2]));
    var b := a + [Icmp(CmpOf(x), Le, R(v), bound)];
    PartClose(b, CondBr(R(CmpOf(x)), n + 2, n + 3), n + 2, labels, {} + {} + {}, Some(e), Some(labels[n + 2]));
    assert TestLines(x, n, v, bound) == b + [CondBr(R(CmpOf(x)), n + 2, n + 3), LabelLine(n + 2)];
    assert {n + 2} == {} + {} + {} + {n + 2};
  }

  lemma HeadPart(x: Name, n: nat, v: Reg, bound: Operand, d: Regs, labels: Labels)
    requires v.Val? && OfOperand(bound) <= d && n in labels && n + 1 in labels && n + 2 in labels && n + 3 in labels
    requires labels[n] == d && labels[n + 1] == d + {Ptr(x)} && labels[n + 2] == d + {Ptr(x)} + {v} + {CmpOf(x)} && labels[n + 3] <= d
    ensures Part(G.ForHead(x, n, v, bound), labels, {n, n + 1} + {n + 2}, Some(d), Some(labels[n + 2]))
  {
    EnterPart(x, n, d, labels);
    TestPart(x, n, v, bound, d + {Ptr(x)}, labels);
    PartAppend(EnterLines(x, n), TestLines(x, n, v, bound), labels, {n, n + 1}, {n + 2}, Some(d), Some(d + {Ptr(x)}), Some(labels[n + 2]));
    assert G.ForHead(x, n, v, bound) == EnterLines(x, n) + TestLines(x, n, v, bound);
  }

  lemma ForShape(a: Code, h: Code, b: Code, t: Code, labels: Labels, lh: set<Label>, lb: set<Label>, lt: set<Label>,
                 d: Regs, da: Regs, dh: Regs, db: Regs)
    requires Part(a, labels, {}, Some(d), Some(da)) && Part(h, labels, lh, Some(da), Some(dh))
    requires Part(b, labels, lb, Some(dh), Some(db)) && Part(t, labels, lt, Some(db), Some(d))
    ensures Part(a + h + b + t, labels, {} + lh + lb + lt, Some(d), Some(d))
  {
    PartAppend(a, h, labels, {}, lh, Some(d), Some(da), Some(dh));
    PartAppend(a + h, b, labels, {} + lh, lb, Some(d), Some(dh), Some(db));
    PartAppend(a + h + b, t, labels, {} + lh + lb, lt, Some(d), Some(db), Some(d));
  }

  lemma TailPart(x: Name, n: nat, v: Reg, k: nat, d: Regs, labels: Labels)
    requires v in d && Ptr(x) in d && n + 1 in labels && n + 3 in labels && labels[n + 1] <= d
    ensures Part(G.ForTail(x, n, v, k), labels, {n + 3}, Some(d), Some(labels[n + 3]))
  {
    PartNothing(labels, Some(d));
    PartLine([], Arith(Tmp(k), ArithOp.Add, R(v), Imm(1)), labels, {}, Some(d), Some(d), Some(d + {Tmp(k)}));
    var a := [] + [Arith(Tmp(k), ArithOp.Add, R(v), Imm(1))];
    PartLine(a, Store(R(Tmp(k)), Ptr(x)), labels, {} + {}, Some(d), Some(d + {Tmp(k)}), Some(d));
    var b := a + [Store(R(Tmp(k)), Ptr(x))];
    PartClose(b, Br(n + 1), n + 3, labels, {} + {} + {}, Some(d), Some(d));
    assert G.ForTail(x, n, v, k) == b + [Br(n + 1), LabelLine(n + 3)];
  }

  lemma ForGlue(a: Code, b: Code, x: Name, n: nat, v: Reg, bound: Operand, k: nat, labels: Labels, lb: set<Label>, d: Regs, da: Regs, db: Regs)
    requires v.Val? && OfOperand(bound) <= da && d <= da && v in db && Ptr(x) in db && da + {Ptr(x)} <= db
    requires n in labels && n + 1 in labels && n + 2 in labels && n + 3 in labels
    requires labels[n] == da && labels[n + 1] == da + {Ptr(x)} && labels[n + 2] == da + {Ptr(x)} + {v} + {CmpOf(x)} && labels[n + 3] == d
    requires Part(a, labels, {}, Some(d), Some(da)) && Part(b, labels, lb, Some(labels[n + 2]), Some(db))
    ensures Part(a + G.ForHead(x, n, v, bound) + b + G.ForTail(x, n, v, k), labels, lb + {n, n + 1, n + 2, n + 3}, Some(d), Some(d))
  {
    HeadPart(x, n, v, bound, da, labels);
    TailPart(x, n, v, k, db, labels);
    ForShape(a, G.ForHead(x, n, v, bound), b, G.ForTail(x, n, v, k), labels, {n, n + 1} + {n + 2}, lb, {n + 3}, d, da, labels[n + 2], db);
    assert {} + ({n, n + 1} + {n + 2}) + lb + {n + 3} == lb + {n, n + 1, n + 2, n + 3};
  }

  lemma ForLabels(lb: Labels, n: nat, a: nat, b: nat, d0: Regs, d1: Regs, d2: Regs, d3: Regs) returns (labels: Labels)
    requires n + 4 <= a <= b && Numbered(lb, a, b)
    ensures Extends(labels, lb) && Numbered(labels, n, b) && labels.Keys == lb.Keys + {n, n + 1, n + 2, n + 3}
    ensures labels[n] == d0 && labels[n + 1] == d1 && labels[n + 2] == d2 && labels[n + 3] == d3
  {
    labels := lb[n := d0][n + 1 := d1][n + 2 := d2][n + 3 := d3];
  }

  lemma {:induction false} ForPart(x: Name, it: Iter, body: seq<Stmt>, n: nat, slots: G.Slots, scope: set<Name>, d: Regs)
    returns (labels: Labels)
    requires ClosedIter(it, scope) && ClosedBlock(body, scope + {x}) && S.Slotted(scope, slots) && PtrsIn(scope, d)
    ensures var g := G.ForStmt(x, it, body, n, slots);
      Numbered(labels, n, g.n) && Part(g.code, labels, labels.Keys, Some(d), Some(d)) && S.Slotted(scope, g.slots)
    decreases For(x, it, body), 0
  {
    var gi := G.Bound(it, n + 4, slots);
    var gb := G.Block(body, gi.n + 1, slots[x := Ptr(x)]);
    var di := BoundPart(it, n + 4, slots, scope, d, map[]);
    var lb, db := InnerPart(x, body, gi.n, slots, scope, d, di, gb);
    labels := ForWhole(x, n, gi, gb, lb, d, di, db);
    G.ForUnfold(x, it, body, n, slots, gi, gb);
  }

  /** The body of a counted loop. */
  lemma {:induction false} InnerPart(x: Name, body: seq<Stmt>, k: nat, slots: G.Slots, scope: set<Name>, d: Regs, di: Regs, gb: G.GenS)
    returns (lb: Labels, db: Regs)
    requires ClosedBlock(body, scope + {x}) && S.Slotted(scope, slots) && PtrsIn(scope, d) && d <= di
    requires gb == G.Block(body, k + 1, slots[x := Ptr(x)])
    ensures HeadRegs(x, k, di) <= db && k + 1 <= gb.n && Numbered(lb, k + 1, gb.n) && S.Slotted(scope, gb.slots)
    ensures Part(gb.code, lb, lb.Keys, Some(HeadRegs(x, k, di)), Some(db))
    decreases body, 3
  {
    InnerSlots(x, slots, scope, d, di, k);
    lb, db := BlockPart(body, k + 1, slots[x := Ptr(x)], scope + {x}, HeadRegs(x, k, di));
    OuterSlots(x, scope, gb.slots);
  }

  /** What is set where the body begins. */
  function HeadRegs(x: Name, k: nat, d: Regs): Regs { d + {Ptr(x)} + {Val(x, k)} + {CmpOf(x)} }

  lemma InnerSlots(x: Name, slots: G.Slots, scope: set<Name>, d: Regs, di: Regs, k: nat)
    requires S.Slotted(scope, slots) && PtrsIn(scope, d) && d <= di
    ensures S.Slotted(scope + {x}, slots[x := Ptr(x)]) && PtrsIn(scope + {x}, HeadRegs(x, k, di))
  {}

  lemma OuterSlots(x: Name, scope: set<Name>, slots: G.Slots)
    requires S.Slotted(scope + {x}, slots)
    ensures S.Slotted(scope, slots)
  {}

  lemma ForWhole(x: Name, n: nat, gi: G.GenE, gb: G.GenS, lb: Labels, d: Regs, di: Regs, db: Regs) returns (labels: Labels)
    requires n + 4 <= gi.n < gb.n && Numbered(lb, gi.n + 1, gb.n)
    requires Part(gi.code, map[], {}, Some(d), Some(di)) && OfOperand(gi.v) <= di && d <= di && HeadRegs(x, gi.n, di) <= db
    requires Part(gb.code, lb, lb.Keys, Some(HeadRegs(x, gi.n, di)), Some(db))
    ensures var v := Val(x, gi.n);
      && Numbered(labels, n, gb.n + 1)
      && Part(gi.code + G.ForHead(x, n, v, gi.v) + gb.code + G.ForTail(x, n, v, gb.n), labels, labels.Keys, Some(d), Some(d))
  {
    var v, dh := Val(x, gi.n), HeadRegs(x, gi.n, di);
    labels := ForLabels(lb, n, gi.n + 1, gb.n, di, di + {Ptr(x)}, dh, d);
    PartMore(gi.code, map[], labels, {}, Some(d), Some(di));
    PartMore(gb.code, lb, labels, lb.Keys, Some(dh), Some(db));
    ForGlue(gi.code, gb.code, x, n, v, gi.v, gb.n, labels, lb.Keys, d, di, db);
  }

  lemma {:induction false} BlockPart(b: seq<Stmt>, n: nat, slots: G.Slots, scope: set<Name>, d: Regs) returns (labels: Labels, d1: Regs)
    requires ClosedBlock(b, scope) && S.Slotted(scope, slots) && PtrsIn(scope, d)
    ensures var g := G.Block(b, n, slots);
      d <= d1 && Numbered(labels, n, g.n) && Part(g.code, labels, labels.Keys, Some(d), Some(d1)) && S.Slotted(scope, g.slots)
    decreases b, 2
  {
    if b == [] {
      labels, d1 := map[], d;
      PartNothing(labels, Some(d));
    } else {
      var g := G.Stmt(b[0], n, slots);
      var h := G.Block(b[1..], g.n, g.slots);
      var l0 := StmtPart(b[0], n, slots, scope, d);
      var d0 := d + NewPtr(b[0]);
      var l1, d2 := BlockPart(b[1..], g.n, g.slots, ScopeAfter(b[0], scope), d0);
      labels, d1 := l0 + l1, d2;
      PartMore(g.code, l0, labels, l0.Keys, Some(d), Some(d0));
      PartMore(h.code, l1, labels, l1.Keys, Some(d0), Some(d1));
      PartAppend(g.code, h.code, labels, l0.Keys, l1.Keys, Some(d), Some(d0), Some(d1));
    }
  }

  // ----- every path -----

  lemma {:induction false} PathKnown(p: Code, ks: seq<Known>, labels: Labels, t: seq<nat>, k: nat)
    requires Flow(p, ks, labels) && ks[0] == Some({}) && p != [] && p[|p| - 1] == RetVoid && Path(p, t) && k < |t|
    ensures t[k] < |p| && ks[t[k]].Some? && ks[t[k]].value <= SetOn(p, t, k)
  {
    if k > 0 {
      PathKnown(p, ks, labels, t, k - 1);
      var i, j := t[k - 1], t[k];
      assert LeadsTo(p, i, j);
      assert FlowAt(p, ks, labels, i);
      if p[i].Br? || p[i].CondBr? {
        assert FlowAt(p, ks, labels, j - 1);
      }
    }
  }

  /** On every path through the code of a program that reads and assigns only visible names,
      every position is safe. */
  lemma EveryPathSafe(program: seq<Stmt>, n: nat, t: seq<nat>, k: nat)
    requires ClosedBlock(program, {}) && Path(G.Main(program, n), t) && k < |t|
    ensures SafeAt(G.Main(program, n), t, k)
  {
    var p := G.Main(program, n);
    var labels, d := BlockPart(program, n, map[], {}, {});
    PartLine(G.Block(program, n, map[]).code, RetVoid, labels, labels.Keys, Some({}), Some(d), None);
    var ks :| Connects(p, ks, labels, Some({}), None);
    PathKnown(p, ks, labels, t, k);
    assert FlowAt(p, ks, labels, t[k]);
    assert forall l :: l in Targets(p[t[k]]) ==> l in labels && HasLabel(p, l);
  }
}
