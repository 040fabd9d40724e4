/** The code generator as it is written: an object that appends lines to its output and
    advances a label counter. Each method is tied to the function that says what it appends. */
module Emitter {
  import opened Ast
  import opened Ir
  import G = Codegen

  class LlvmCodegen {
    var output: Code
    var labelCounter: nat
    var varAlloca: G.Slots

    constructor ()
      ensures output == [] && labelCounter == 0 && varAlloca == map[]
    {
      output, labelCounter, varAlloca := [], 0, map[];
    }

    method E(line: Line)
      modifies this`output
      ensures output == old(output) + [line]
    {
      output := output + [line];
    }

    method FreshLabel() returns (n: nat)
      modifies this`labelCounter
      ensures n == old(labelCounter) && labelCounter == n + 1
    {
      n := labelCounter;
      labelCounter := labelCounter + 1;
    }

    method ValueName(x: Name) returns (r: Reg)
      modifies this`labelCounter
      ensures r == Val(x, old(labelCounter)) && labelCounter == old(labelCounter) + 1
    {
      r := Val(x, labelCounter);
      labelCounter := labelCounter + 1;
    }

    /** The lines, the operand and the counter are those of the function. */
    twostate predicate Emitted(g: G.GenE, v: Operand)
      reads this
    {
      output == old(output) + g.code && v == g.v && labelCounter == g.n && varAlloca == old(varAlloca)
    }

    twostate predicate EmittedS(g: G.GenS)
      reads this
    {
      output == old(output) + g.code && labelCounter == g.n && varAlloca == g.slots
    }

    method CompileExpr(e: Expr) returns (v: Operand)
      modifies this
      ensures Emitted(G.Expr(e, old(labelCounter), old(varAlloca)), v)
      decreases e
    {
      match e
      case LitInt(n) => v := Imm(n);
      case Ident(x) =>
        if x in varAlloca {
          var r := ValueName(x);
          E(Load(r, varAlloca[x]));
          v := R(r);
        } else {
          v := R(Raw(x));
        }
      case UnOp(op, inner) =>
        var i := CompileExpr(inner);
        match op {
          case Neg => v := CompileOp(ArithOp.Sub, Imm(0), i);
          case BitNot => v := CompileOp(Xor, i, Imm(-1));
        }
      case BinOp(op, l, r) =>
        var a := CompileExpr(l);
        var b := CompileExpr(r);
        v := CompileOp(G.Instr(op), a, b);
    }

    method CompileOp(op: ArithOp, a: Operand, b: Operand) returns (v: Operand)
      modifies this`output, this`labelCounter
      ensures var t := old(labelCounter);
        output == old(output) + [Arith(Tmp(t), op, a, b)] && labelCounter == t + 1 && v == R(Tmp(t))
    {
      var t := FreshLabel();
      E(Arith(Tmp(t), op, a, b));
      v := R(Tmp(t));
    }

    method CompileCond(c: Cond) returns (v: Operand)
      modifies this
      ensures Emitted(G.Cond(c, old(labelCounter), old(varAlloca)), v)
      decreases c
    {
      match c
      case LitBool(b) => v := if b then True else False;
      case Not(d) =>
        var i := CompileCond(d);
        var t := FreshLabel();
        E(XorTrue(Tmp(t), i));
        v := R(Tmp(t));
      case Cmp(op, l, r) =>
        var a := CompileExpr(l);
        var b := CompileExpr(r);
        var t := FreshLabel();
        E(Icmp(Tmp(t), op, a, b));
        v := R(Tmp(t));
    }

    method CompileBound(it: Iter) returns (v: Operand)
      modifies this
      ensures Emitted(G.Bound(it, old(labelCounter), old(varAlloca)), v)
    {
      match it
      case Upto(e) => v := CompileExpr(e);
      case Range(s, e) =>
        var _ := CompileExpr(s);
        v := CompileExpr(e);
    }

    method CompileStmt(s: Stmt)
      modifies this
      ensures EmittedS(G.Stmt(s, old(labelCounter), old(varAlloca)))
      decreases s, 2
    {
      match s
      case Decl(x, e, _) =>
        var v := CompileExpr(e);
        varAlloca := varAlloca[x := Ptr(x)];
        E(Alloca(Ptr(x)));
        E(Store(v, Ptr(x)));
      case Assign(x, e) =>
        var v := CompileExpr(e);
        if x !in varAlloca {
          E(Alloca(Ptr(x)));
          varAlloca := varAlloca[x := Ptr(x)];
          E(Store(v, Ptr(x)));
        } else {
          E(Store(v, varAlloca[x]));
        }
      case Print(e) =>
        var v := CompileExpr(e);
        E(CallPrint(v));
      case If(c, thn, els) => CompileIf(c, thn, els);
      case While(c, body) => CompileWhile(c, body);
      case For(x, it, body) => CompileFor(x, it, body);
    }

    /** The end of a block and the label of the next one. */
    method Close(line: Line, next: Label)
      modifies this`output
      ensures output == old(output) + [line, LabelLine(next)]
    {
      E(line);
      E(LabelLine(next));
    }

    /** A body, the branch behind it and the label of the next block. */
    method CompileBranch(b: seq<Stmt>, target: Label, next: Label, ghost g: G.GenS)
      requires g == G.Block(b, labelCounter, varAlloca)
      modifies this
      ensures output == old(output) + (g.code + [Br(target), LabelLine(next)]) && labelCounter == g.n && varAlloca == g.slots
      decreases b, 3
    {
      ghost var o := output;
      CompileBlock(b);
      Close(Br(target), next);
      Behind(o, g.code, [Br(target), LabelLine(next)]);
    }

    /** A condition, the branch on it and the label of the block that it leads to. */
    method CompileTest(c: Cond, yes: Label, no: Label, ghost g: G.GenE)
      requires g == G.Cond(c, labelCounter, varAlloca)
      modifies this
      ensures output == old(output) + (g.code + [CondBr(g.v, yes, no), LabelLine(yes)]) && labelCounter == g.n && varAlloca == old(varAlloca)
    {
      ghost var o := output;
      var v := CompileCond(c);
      Close(CondBr(v, yes, no), yes);
      Behind(o, g.code, [CondBr(g.v, yes, no), LabelLine(yes)]);
    }

    /** Output grows at its end. */
    static lemma Behind(o: Code, a: Code, b: Code)
      ensures o + a + b == o + (a + b)
    {}

    static lemma Behind3(o: Code, a: Code, x: Code, b: Code, y: Code, c: Code, z: Code)
      ensures o + (a + x) + (b + y) + (c + z) == o + (a + x + b + y + c + z)
    {}

    static lemma WhileEmitted(o: Code, out: Code, n: nat, gc: G.GenE, gb: G.GenS)
      requires out == o + [Br(n), LabelLine(n)] + (gc.code + [CondBr(gc.v, n + 1, n + 2), LabelLine(n + 1)]) + (gb.code + [Br(n), LabelLine(n + 2)])
      ensures out == o + ([Br(n), LabelLine(n)] + gc.code + [CondBr(gc.v, n + 1, n + 2), LabelLine(n + 1)] + gb.code + [Br(n), LabelLine(n + 2)])
    {
      Behind2(o, [Br(n), LabelLine(n)], gc.code, [CondBr(gc.v, n + 1, n + 2), LabelLine(n + 1)], gb.code, [Br(n), LabelLine(n + 2)]);
    }

    static lemma Behind2(o: Code, x: Code, b: Code, y: Code, c: Code, z: Code)
      ensures o + x + (b + y) + (c + z) == o + (x + b + y + c + z)
    {}

    static lemma ForEmitted(o: Code, out: Code, x: Name, n: nat, v: Reg, gi: G.GenE, gb: G.GenS)
      requires out == o + gi.code + G.ForHead(x, n, v, gi.v) + gb.code + G.ForTail(x, n, v, gb.n)
      ensures out == o + (gi.code + G.ForHead(x, n, v, gi.v) + gb.code + G.ForTail(x, n, v, gb.n))
    {
      Behind4(o, gi.code, G.ForHead(x, n, v, gi.v), gb.code, G.ForTail(x, n, v, gb.n));
    }

    static lemma Behind4(o: Code, a: Code, b: Code, c: Code, d: Code)
      ensures o + a + b + c + d == o + (a + b + c + d)
    {}

    method CompileIf(c: Cond, thn: seq<Stmt>, els: seq<Stmt>)
      modifies this
      ensures EmittedS(G.IfStmt(c, thn, els, old(labelCounter), old(varAlloca)))
      decreases If(c, thn, els), 1
    {
      ghost var o, n, slots := output, labelCounter, varAlloca;
      ghost var gc := G.Cond(c, n + 3, slots);
      ghost var gt := G.Block(thn, gc.n, slots);
      ghost var ge := G.Block(els, gt.n, gt.slots);
      var thenLabel := FreshLabel();
      var elseLabel := FreshLabel();
      var mergeLabel := FreshLabel();
      CompileTest(c, thenLabel, elseLabel, gc);
      CompileArms(c, thn, els, elseLabel, mergeLabel, gt, ge);
      IfEmitted(o, output, n, gc, gt, ge);
      G.IfUnfold(c, thn, els, n, slots, gc, gt, ge);
    }

    method CompileArms(ghost c: Cond, thn: seq<Stmt>, els: seq<Stmt>, elseLabel: Label, mergeLabel: Label, ghost gt: G.GenS, ghost ge: G.GenS)
      requires gt == G.Block(thn, labelCounter, varAlloca) && ge == G.Block(els, gt.n, gt.slots)
      modifies this
      ensures output == old(output) + (gt.code + [Br(mergeLabel), LabelLine(elseLabel)]) + (ge.code + [Br(mergeLabel), LabelLine(mergeLabel)])
      ensures labelCounter == ge.n && varAlloca == ge.slots
      decreases If(c, thn, els), 0
    {
      CompileBranch(thn, mergeLabel, elseLabel, gt);
      CompileBranch(els, mergeLabel, mergeLabel, ge);
    }

    static lemma IfEmitted(o: Code, out: Code, n: nat, gc: G.GenE, gt: G.GenS, ge: G.GenS)
      requires out == o + (gc.code + [CondBr(gc.v, n, n + 1), LabelLine(n)]) + (gt.code + [Br(n + 2), LabelLine(n + 1)])
                      + (ge.code + [Br(n + 2), LabelLine(n + 2)])
      ensures out == o + (gc.code + [CondBr(gc.v, n, n + 1), LabelLine(n)] + gt.code + [Br(n + 2), LabelLine(n + 1)]
                          + ge.code + [Br(n + 2), LabelLine(n + 2)])
    {
      Behind3(o, gc.code, [CondBr(gc.v, n, n + 1), LabelLine(n)], gt.code, [Br(n + 2), LabelLine(n + 1)],
              ge.code, [Br(n + 2), LabelLine(n + 2)]);
    }

    method CompileWhile(c: Cond, body: seq<Stmt>)
      modifies this
      ensures EmittedS(G.WhileStmt(c, body, old(labelCounter), old(varAlloca)))
      decreases While(c, body), 0
    {
      ghost var o, n, slots := output, labelCounter, varAlloca;
      ghost var gc := G.Cond(c, n + 3, slots);
      ghost var gb := G.Block(body, gc.n, slots);
      var headLabel := FreshLabel();
      var bodyLabel := FreshLabel();
      var exitLabel := FreshLabel();
      Close(Br(headLabel), headLabel);
      CompileTest(c, bodyLabel, exitLabel, gc);
      CompileBranch(body, headLabel, exitLabel, gb);
      WhileEmitted(o, output, n, gc, gb);
      G.WhileUnfold(c, body, n, slots, gc, gb);
    }

    method CompileForHead(x: Name, initLabel: Label, end: Operand) returns (v: Reg)
      modifies this
      ensures v == Val(x, old(labelCounter)) && labelCounter == old(labelCounter) + 1
      ensures varAlloca == old(varAlloca)[x := Ptr(x)]
      ensures output == old(output) + G.ForHead(x, initLabel, v, end)
    {
      Close(Br(initLabel), initLabel);
      varAlloca := varAlloca[x := Ptr(x)];
      E(Alloca(Ptr(x)));
      E(Store(Imm(0), Ptr(x)));
      Close(Br(initLabel + 1), initLabel + 1);
      v := ValueName(x);
      E(Load(v, Ptr(x)));
      E(Icmp(CmpOf(x), Le, R(v), end));
      Close(CondBr(R(CmpOf(x)), initLabel + 2, initLabel + 3), initLabel + 2);
    }

    method CompileForEntry(x: Name, it: Iter, initLabel: Label, ghost g: G.GenE) returns (v: Reg)
      requires g == G.Bound(it, labelCounter, varAlloca)
      modifies this
      ensures v == Val(x, g.n) && labelCounter == g.n + 1 && varAlloca == old(varAlloca)[x := Ptr(x)]
      ensures output == old(output) + g.code + G.ForHead(x, initLabel, v, g.v)
    {
      var end := CompileBound(it);
      v := CompileForHead(x, initLabel, end);
    }

    method CompileForTail(x: Name, initLabel: Label, v: Reg)
      modifies this`output, this`labelCounter
      ensures labelCounter == old(labelCounter) + 1
      ensures output == old(output) + G.ForTail(x, initLabel, v, old(labelCounter))
    {
      var next := FreshLabel();
      E(Arith(Tmp(next), ArithOp.Add, R(v), Imm(1)));
      E(Store(R(Tmp(next)), Ptr(x)));
      Close(Br(initLabel + 1), initLabel + 3);
    }

    method CompileFor(x: Name, it: Iter, body: seq<Stmt>)
      modifies this
      ensures EmittedS(G.ForStmt(x, it, body, old(labelCounter), old(varAlloca)))
      decreases For(x, it, body), 0
    {
      ghost var o, n, slots := output, labelCounter, varAlloca;
      ghost var gi := G.Bound(it, n + 4, slots);
      ghost var gb := G.Block(body, gi.n + 1, slots[x := Ptr(x)]);
      var initLabel := FreshLabel();
      var _ := FreshLabel();
      var _ := FreshLabel();
      var _ := FreshLabel();
      var v := CompileForEntry(x, it, initLabel, gi);
      CompileForBody(x, initLabel, v, body, gb);
      ForEmitted(o, output, x, n, v, gi, gb);
      G.ForUnfold(x, it, body, n, slots, gi, gb);
    }

    method CompileForBody(x: Name, initLabel: Label, v: Reg, body: seq<Stmt>, ghost g: G.GenS)
      requires g == G.Block(body, labelCounter, varAlloca)
      modifies this
      ensures output == old(output) + g.code + G.ForTail(x, initLabel, v, g.n) && labelCounter == g.n + 1 && varAlloca == g.slots
      decreases body, 3
    {
      CompileBlock(body);
      CompileForTail(x, initLabel, v);
    }

    method CompileBlock(b: seq<Stmt>)
      modifies this
      ensures EmittedS(G.Block(b, old(labelCounter), old(varAlloca)))
      decreases b, 2
    {
      var i := 0;
      ghost var all := G.Block(b, labelCounter, varAlloca);
      assert b[0..] == b;
      while i < |b|
        invariant 0 <= i <= |b|
        invariant var rest := G.Block(b[i..], labelCounter, varAlloca);
          old(output) + all.code == output + rest.code && rest.n == all.n && rest.slots == all.slots
      {
        assert b[i..][0] == b[i] && b[i..][1..] == b[i + 1..];
        CompileStmt(b[i]);
        i := i + 1;
      }
      assert b[i..] == [];
    }

    method CompileMain(program: seq<Stmt>)
      modifies this
      ensures output == old(output) + G.Main(program, old(labelCounter))
    {
      varAlloca := map[];
      CompileBlock(program);
      E(RetVoid);
    }
  }
}
