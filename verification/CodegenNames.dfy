/** Names in the emitted code: how often each is defined. */
module CodegenNames {
  import opened Wrappers
  import opened Ast
  import opened Ir
  import G = Codegen
  import S = Simulation

  /** A number of the counter, shared by labels and numbered registers, or a register named
      after a variable. */
  datatype Key = Number(n: nat) | Named(r: Reg)

  function KeyOf(r: Reg): Key {
    match r
    case Tmp(n) => Number(n)
    case Val(_, n) => Number(n)
    case _ => Named(r)
  }

  /** What a line defines; a label `yk_n` lives in the name space of the registers. */
  function Defines(line: Line): Option<Key> {
    match line
    case LabelLine(l) => Some(Number(l))
    case Alloca(d) => Some(KeyOf(d))
    case Load(d, _) => Some(KeyOf(d))
    case Arith(d, _, _, _) => Some(KeyOf(d))
    case Icmp(d, _, _, _) => Some(KeyOf(d))
    case XorTrue(d, _) => Some(KeyOf(d))
    case _ => None
  }

  function One(line: Line, k: Key): nat { if Defines(line) == Some(k) then 1 else 0 }

  function Is(k: Key): Line -> nat { line => One(line, k) }

  predicate Agrees(f: Line -> nat, k: Key, line: Line) { f(line) == One(line, k) }

  /** f counts the definitions of k; the structural lemmas below know of it no more than that. */
  ghost predicate Counts(f: Line -> nat, k: Key) {
    forall line {:trigger Agrees(f, k, line)} :: Agrees(f, k, line)
  }

  /** Sum of f over the first n lines. */
  function SumTo(f: Line -> nat, c: Code, n: nat): nat
    requires n <= |c|
  {
    if n == 0 then 0 else SumTo(f, c, n - 1) + f(c[n - 1])
  }

  function Sum(f: Line -> nat, c: Code): nat { SumTo(f, c, |c|) }

  lemma {:induction false} SumPrefix(f: Line -> nat, a: Code, b: Code, n: nat)
    requires n <= |a|
    ensures SumTo(f, a + b, n) == SumTo(f, a, n)
  {
    if n > 0 { SumPrefix(f, a, b, n - 1); }
  }

  lemma {:induction false} SumSuffix(f: Line -> nat, a: Code, b: Code, n: nat)
    requires n <= |b|
    ensures SumTo(f, a + b, |a| + n) == Sum(f, a) + SumTo(f, b, n)
  {
    if n == 0 {
      SumPrefix(f, a, b, |a|);
    } else {
      SumSuffix(f, a, b, n - 1);
      assert (a + b)[|a| + n - 1] == b[n - 1];
    }
  }

  lemma SumAppend(f: Line -> nat, a: Code, b: Code)
    ensures Sum(f, a + b) == Sum(f, a) + Sum(f, b)
  {
    SumSuffix(f, a, b, |b|);
  }

  lemma Sum1(f: Line -> nat, x: Line)
    ensures Sum(f, [x]) == f(x)
  {
    assert SumTo(f, [x], 0) == 0;
  }

  lemma Sum2(f: Line -> nat, x: Line, y: Line)
    ensures Sum(f, [x, y]) == f(x) + f(y)
  {
    assert SumTo(f, [x, y], 0) == 0 && SumTo(f, [x, y], 1) == f(x);
  }

  function Times(k: Key, c: Code): nat { Sum(Is(k), c) }

  // ----- expressions use each number of their interval once -----

  function Within(k: Key, lo: nat, hi: nat): nat {
    if k.Number? && lo <= k.n < hi then 1 else 0
  }

  lemma PairTimes(gl: G.GenE, gr: G.GenE, n: nat, line: Line, f: Line -> nat, k: Key)
    requires Counts(f, k)
    requires n <= gl.n <= gr.n && Defines(line) == Some(Number(gr.n))
    requires Sum(f, gl.code) == Within(k, n, gl.n) && Sum(f, gr.code) == Within(k, gl.n, gr.n)
    ensures Sum(f, gl.code + gr.code + [line]) == Within(k, n, gr.n + 1)
  {
    SumAppend(f, gl.code, gr.code);
    LastTimes(gl.code + gr.code, line, f, k);
  }

  lemma {:induction false} ExprTimes(e: Expr, n: nat, slots: G.Slots, f: Line -> nat, k: Key)
    requires Counts(f, k)
    ensures Sum(f, G.Expr(e, n, slots).code) == Within(k, n, G.Expr(e, n, slots).n)
  {
    match e
    case LitInt(_) =>
    case Ident(x) =>
      if x in slots { Sum1(f, Load(Val(x, n), slots[x])); assert Agrees(f, k, Load(Val(x, n), slots[x])); }
    case UnOp(op, inner) =>
      var g := G.Expr(inner, n, slots);
      ExprTimes(inner, n, slots, f, k);
      LastTimes(g.code, if op.Neg? then Arith(Tmp(g.n), ArithOp.Sub, Imm(0), g.v) else Arith(Tmp(g.n), Xor, g.v, Imm(-1)), f, k);
    case BinOp(op, l, r) =>
      var gl := G.Expr(l, n, slots);
      var gr := G.Expr(r, gl.n, slots);
      ExprTimes(l, n, slots, f, k);
      ExprTimes(r, gl.n, slots, f, k);
      PairTimes(gl, gr, n, Arith(Tmp(gr.n), G.Instr(op), gl.v, gr.v), f, k);
  }

  lemma LastTimes(a: Code, line: Line, f: Line -> nat, k: Key)
    requires Counts(f, k)
    ensures Sum(f, a + [line]) == Sum(f, a) + One(line, k)
  {
    SumAppend(f, a, [line]);
    Sum1(f, line);
    assert Agrees(f, k, line);
  }

  lemma Last2Times(a: Code, x: Line, y: Line, f: Line -> nat, k: Key)
    requires Counts(f, k)
    ensures Sum(f, a + [x, y]) == Sum(f, a) + One(x, k) + One(y, k)
  {
    SumAppend(f, a, [x, y]);
    Sum2(f, x, y);
    assert Agrees(f, k, x) && Agrees(f, k, y);
  }

  lemma {:induction false} CondTimes(c: Cond, n: nat, slots: G.Slots, f: Line -> nat, k: Key)
    requires Counts(f, k)
    ensures Sum(f, G.Cond(c, n, slots).code) == Within(k, n, G.Cond(c, n, slots).n)
  {
    match c
    case LitBool(_) =>
    case Not(d) =>
      var g := G.Cond(d, n, slots);
      CondTimes(d, n, slots, f, k);
      LastTimes(g.code, XorTrue(Tmp(g.n), g.v), f, k);
    case Cmp(op, l, r) =>
      var gl := G.Expr(l, n, slots);
      var gr := G.Expr(r, gl.n, slots);
      ExprTimes(l, n, slots, f, k);
      ExprTimes(r, gl.n, slots, f, k);
      PairTimes(gl, gr, n, Icmp(Tmp(gr.n), op, gl.v, gr.v), f, k);
  }

  lemma BoundTimes(it: Iter, n: nat, slots: G.Slots, f: Line -> nat, k: Key)
    requires Counts(f, k)
    ensures Sum(f, G.Bound(it, n, slots).code) == Within(k, n, G.Bound(it, n, slots).n)
  {
    match it
    case Upto(e) => ExprTimes(e, n, slots, f, k);
    case Range(s, e) =>
      var gs := G.Expr(s, n, slots);
      ExprTimes(s, n, slots, f, k);
      ExprTimes(e, gs.n, slots, f, k);
      SumAppend(f, gs.code, G.Expr(e, gs.n, slots).code);
  }

  // ----- statements also define the registers of the names they declare -----

  /** Names of the loops of a statement, with multiplicity. */
  function Loops(s: Stmt): multiset<Name>
    decreases s, 0
  {
    match s
    case If(_, thn, els) => LoopsIn(thn) + LoopsIn(els)
    case While(_, body) => LoopsIn(body)
    case For(x, _, body) => multiset{x} + LoopsIn(body)
    case _ => multiset{}
  }

  function LoopsIn(b: seq<Stmt>): multiset<Name>
    decreases b, 1
  {
    if b == [] then multiset{} else Loops(b[0]) + LoopsIn(b[1..])
  }

  function Expected(k: Key, lo: nat, hi: nat, declared: multiset<Name>, loops: multiset<Name>): nat {
    match k
    case Named(Ptr(x)) => declared[x]
    case Named(CmpOf(x)) => loops[x]
    case _ => Within(k, lo, hi)
  }

  lemma {:induction false} StmtTimes(s: Stmt, n: nat, slots: G.Slots, scope: set<Name>, f: Line -> nat, k: Key)
    requires Counts(f, k)
    requires Assigns(s, scope) && S.Slotted(scope, slots)
    ensures Sum(f, G.Stmt(s, n, slots).code) == Expected(k, n, G.Stmt(s, n, slots).n, Declared(s), Loops(s))
    ensures S.Slotted(ScopeAfter(s, scope), G.Stmt(s, n, slots).slots)
    decreases s, 1
  {
    match s
    case Decl(x, e, _) =>
      var g := G.Expr(e, n, slots);
      ExprTimes(e, n, slots, f, k);
      Last2Times(g.code, Alloca(Ptr(x)), Store(g.v, Ptr(x)), f, k);
    case Assign(x, e) =>
      ExprTimes(e, n, slots, f, k);
      LastTimes(G.Expr(e, n, slots).code, Store(G.Expr(e, n, slots).v, slots[x]), f, k);
    case Print(e) =>
      ExprTimes(e, n, slots, f, k);
      LastTimes(G.Expr(e, n, slots).code, CallPrint(G.Expr(e, n, slots).v), f, k);
    case If(c, thn, els) => IfTimes(c, thn, els, n, slots, scope, f, k);
    case While(c, body) => WhileTimes(c, body, n, slots, scope, f, k);
    case For(x, it, body) => ForTimes(x, it, body, n, slots, scope, f, k);
  }

  lemma IfShape(a: Code, b: Code, c: Code, x: Line, lx: Line, y: Line, ly: Line, z: Line, lz: Line, f: Line -> nat, k: Key)
    requires Counts(f, k)
    ensures Sum(f, a + [x, lx] + b + [y, ly] + c + [z, lz]) ==
      Sum(f, a) + Sum(f, b) + Sum(f, c) + One(x, k) + One(lx, k) + One(y, k) + One(ly, k) + One(z, k) + One(lz, k)
  {
    Last2Times(a, x, lx, f, k);
    SumAppend(f, a + [x, lx], b);
    Last2Times(a + [x, lx] + b, y, ly, f, k);
    SumAppend(f, a + [x, lx] + b + [y, ly], c);
    Last2Times(a + [x, lx] + b + [y, ly] + c, z, lz, f, k);
  }

  lemma WhileShape(a: Code, b: Code, x: Line, lx: Line, y: Line, ly: Line, z: Line, lz: Line, f: Line -> nat, k: Key)
    requires Counts(f, k)
    ensures Sum(f, [x, lx] + a + [y, ly] + b + [z, lz]) ==
      Sum(f, a) + Sum(f, b) + One(x, k) + One(lx, k) + One(y, k) + One(ly, k) + One(z, k) + One(lz, k)
  {
    assert [] + [x, lx] + a + [y, ly] + b + [z, lz] == [x, lx] + a + [y, ly] + b + [z, lz];
    IfShape([], a, b, x, lx, y, ly, z, lz, f, k);
  }

  lemma ForShape(a: Code, b: Code, c: Code, d: Code, f: Line -> nat)
    ensures Sum(f, a + b + c + d) == Sum(f, a) + Sum(f, b) + Sum(f, c) + Sum(f, d)
  {
    SumAppend(f, a, b);
    SumAppend(f, a + b, c);
    SumAppend(f, a + b + c, d);
  }

  lemma ExpectedAdd(k: Key, a: nat, b: nat, c: nat, d1: multiset<Name>, l1: multiset<Name>, d2: multiset<Name>, l2: multiset<Name>)
    requires a <= b <= c
    ensures Expected(k, a, b, d1, l1) + Expected(k, b, c, d2, l2) == Expected(k, a, c, d1 + d2, l1 + l2)
  {
  }

  lemma Labels3(k: Key, n: nat, v: Operand, hi: nat, d: multiset<Name>, l: multiset<Name>)
    requires n + 3 <= hi
    ensures One(CondBr(v, n, n + 1), k) == 0 && One(Br(n + 2), k) == 0
    ensures One(LabelLine(n), k) + One(LabelLine(n + 1), k) + One(LabelLine(n + 2), k) + Expected(k, n + 3, hi, d, l)
      == Expected(k, n, hi, d, l)
  {
  }

  lemma WithinAdd(k: Key, a: nat, b: nat, c: nat, d: multiset<Name>, l: multiset<Name>)
    requires a <= b <= c
    ensures Within(k, a, b) + Expected(k, b, c, d, l) == Expected(k, a, c, d, l)
  {
  }

  /** Adding up the parts of a branch: three labels, the condition, the two blocks. */
  lemma IfSum(f: Line -> nat, k: Key, n: nat, gc: nat, gt: nat, ge: nat, v: Operand, d1: multiset<Name>, l1: multiset<Name>,
              d2: multiset<Name>, l2: multiset<Name>, a: Code, b: Code, c: Code)
    requires Counts(f, k)
    requires n + 3 <= gc <= gt <= ge && Sum(f, a) == Within(k, n + 3, gc)
    requires Sum(f, b) == Expected(k, gc, gt, d1, l1) && Sum(f, c) == Expected(k, gt, ge, d2, l2)
    ensures Sum(f, a + [CondBr(v, n, n + 1), LabelLine(n)] + b + [Br(n + 2), LabelLine(n + 1)] + c + [Br(n + 2), LabelLine(n + 2)])
      == Expected(k, n, ge, d1 + d2, l1 + l2)
  {
    IfShape(a, b, c, CondBr(v, n, n + 1), LabelLine(n), Br(n + 2), LabelLine(n + 1), Br(n + 2), LabelLine(n + 2), f, k);
    ExpectedAdd(k, gc, gt, ge, d1, l1, d2, l2);
    WithinAdd(k, n + 3, gc, ge, d1 + d2, l1 + l2);
    Labels3(k, n, v, ge, d1 + d2, l1 + l2);
  }

  lemma {:induction false} IfTimes(c: Cond, thn: seq<Stmt>, els: seq<Stmt>, n: nat, slots: G.Slots, scope: set<Name>, f: Line -> nat, k: Key)
    requires Counts(f, k)
    requires AssignsBlock(thn, scope) && AssignsBlock(els, scope) && S.Slotted(scope, slots)
    ensures var g := G.IfStmt(c, thn, els, n, slots);
      && Sum(f, g.code) == Expected(k, n, g.n, DeclaredIn(thn) + DeclaredIn(els), LoopsIn(thn) + LoopsIn(els))
      && S.Slotted(scope, g.slots)
    decreases If(c, thn, els), 0
  {
    var gc := G.Cond(c, n + 3, slots);
    var gt := G.Block(thn, gc.n, slots);
    var ge := G.Block(els, gt.n, gt.slots);
    CondTimes(c, n + 3, slots, f, k);
    BlockTimes(thn, gc.n, slots, scope, f, k);
    BlockTimes(els, gt.n, gt.slots, scope, f, k);
    IfSum(f, k, n, gc.n, gt.n, ge.n, gc.v, DeclaredIn(thn), LoopsIn(thn), DeclaredIn(els), LoopsIn(els), gc.code, gt.code, ge.code);
  }

  lemma {:induction false} WhileTimes(c: Cond, body: seq<Stmt>, n: nat, slots: G.Slots, scope: set<Name>, f: Line -> nat, k: Key)
    requires Counts(f, k)
    requires AssignsBlock(body, scope) && S.Slotted(scope, slots)
    ensures var g := G.WhileStmt(c, body, n, slots);
      Sum(f, g.code) == Expected(k, n, g.n, DeclaredIn(body), LoopsIn(body)) && S.Slotted(scope, g.slots)
    decreases While(c, body), 0
  {
    var gc := G.Cond(c, n + 3, slots);
    var gb := G.Block(body, gc.n, slots);
    CondTimes(c, n + 3, slots, f, k);
    BlockTimes(body, gc.n, slots, scope, f, k);
    WhileSum(f, k, n, gc.n, gb.n, gc.v, gc.code, gb.code, DeclaredIn(body), LoopsIn(body));
  }

  lemma WhileSum(f: Line -> nat, k: Key, n: nat, gc: nat, gb: nat, v: Operand, a: Code, b: Code, declared: multiset<Name>, loops: multiset<Name>)
    requires Counts(f, k) && n + 3 <= gc <= gb
    requires Sum(f, a) == Within(k, n + 3, gc) && Sum(f, b) == Expected(k, gc, gb, declared, loops)
    ensures Sum(f, [Br(n), LabelLine(n)] + a + [CondBr(v, n + 1, n + 2), LabelLine(n + 1)] + b + [Br(n), LabelLine(n + 2)])
      == Expected(k, n, gb, declared, loops)
  {
    WhileShape(a, b, Br(n), LabelLine(n), CondBr(v, n + 1, n + 2), LabelLine(n + 1), Br(n), LabelLine(n + 2), f, k);
  }

  lemma HeadTimes(x: Name, n: nat, v: Reg, bound: Operand, f: Line -> nat, k: Key)
    requires Counts(f, k)
    requires v.Val? && v.n >= n + 4
    ensures Sum(f, G.ForHead(x, n, v, bound)) ==
      Within(k, n, n + 3) + Within(k, v.n, v.n + 1) + (if k == Named(Ptr(x)) || k == Named(CmpOf(x)) then 1 else 0)
  {
    var c := [Br(n), LabelLine(n), Alloca(Ptr(x)), Store(Imm(0), Ptr(x)), Br(n + 1), LabelLine(n + 1)];
    var d := c + [Load(v, Ptr(x)), Icmp(CmpOf(x), Le, R(v), bound)];
    EnterTimes(x, n, f, k);
    Last2Times(c, Load(v, Ptr(x)), Icmp(CmpOf(x), Le, R(v), bound), f, k);
    Last2Times(d, CondBr(R(CmpOf(x)), n + 2, n + 3), LabelLine(n + 2), f, k);
    assert G.ForHead(x, n, v, bound) == d + [CondBr(R(CmpOf(x)), n + 2, n + 3), LabelLine(n + 2)];
  }

  lemma EnterTimes(x: Name, n: nat, f: Line -> nat, k: Key)
    requires Counts(f, k)
    ensures Sum(f, [Br(n), LabelLine(n), Alloca(Ptr(x)), Store(Imm(0), Ptr(x)), Br(n + 1), LabelLine(n + 1)])
      == Within(k, n, n + 2) + if k == Named(Ptr(x)) then 1 else 0
  {
    var a := [Br(n), LabelLine(n)];
    var b := a + [Alloca(Ptr(x)), Store(Imm(0), Ptr(x))];
    Last2Times([], Br(n), LabelLine(n), f, k);
    assert [] + a == a;
    Last2Times(a, Alloca(Ptr(x)), Store(Imm(0), Ptr(x)), f, k);
    Last2Times(b, Br(n + 1), LabelLine(n + 1), f, k);
    assert b + [Br(n + 1), LabelLine(n + 1)] == [Br(n), LabelLine(n), Alloca(Ptr(x)), Store(Imm(0), Ptr(x)), Br(n + 1), LabelLine(n + 1)];
  }

  lemma TailTimes(x: Name, n: nat, v: Reg, j: nat, f: Line -> nat, k: Key)
    requires Counts(f, k)
    requires j >= n + 4
    ensures Sum(f, G.ForTail(x, n, v, j)) == Within(k, n + 3, n + 4) + Within(k, j, j + 1)
  {
    var a := [Arith(Tmp(j), ArithOp.Add, R(v), Imm(1)), Store(R(Tmp(j)), Ptr(x))];
    Last2Times([], a[0], a[1], f, k);
    assert [] + a == a;
    Last2Times(a, Br(n + 1), LabelLine(n + 3), f, k);
    assert G.ForTail(x, n, v, j) == a + [Br(n + 1), LabelLine(n + 3)];
  }

  /** Adding up the parts of a loop whose numbers are n..n+4, then those of the bound, of
      the counter's value, of the body and of the next value. */
  lemma ForSum(f: Line -> nat, k: Key, x: Name, n: nat, gi: G.GenE, gb: G.GenS, declared: multiset<Name>, loops: multiset<Name>)
    requires Counts(f, k) && n + 4 <= gi.n < gb.n
    requires Sum(f, gi.code) == Within(k, n + 4, gi.n) && Sum(f, gb.code) == Expected(k, gi.n + 1, gb.n, declared, loops)
    ensures var v := Val(x, gi.n);
      Sum(f, gi.code + G.ForHead(x, n, v, gi.v) + gb.code + G.ForTail(x, n, v, gb.n))
      == Expected(k, n, gb.n + 1, multiset{x} + declared, multiset{x} + loops)
  {
    var v := Val(x, gi.n);
    HeadTimes(x, n, v, gi.v, f, k);
    TailTimes(x, n, v, gb.n, f, k);
    ForShape(gi.code, G.ForHead(x, n, v, gi.v), gb.code, G.ForTail(x, n, v, gb.n), f);
  }

  lemma {:induction false} ForTimes(x: Name, it: Iter, body: seq<Stmt>, n: nat, slots: G.Slots, scope: set<Name>, f: Line -> nat, k: Key)
    requires Counts(f, k)
    requires AssignsBlock(body, scope + {x}) && S.Slotted(scope, slots)
    ensures var g := G.ForStmt(x, it, body, n, slots);
      && Sum(f, g.code) == Expected(k, n, g.n, multiset{x} + DeclaredIn(body), multiset{x} + LoopsIn(body))
      && S.Slotted(scope, g.slots)
    decreases For(x, it, body), 0
  {
    var gi := G.Bound(it, n + 4, slots);
    var gb := G.Block(body, gi.n + 1, slots[x := Ptr(x)]);
    SlottedWith(scope, slots, x);
    BlockTimes(body, gi.n + 1, slots[x := Ptr(x)], scope + {x}, f, k);
    BoundTimes(it, n + 4, slots, f, k);
    ForTotal(x, it, body, n, slots, gi, gb, f, k, DeclaredIn(body), LoopsIn(body));
    SlottedLess(scope, x, gb.slots);
  }

  lemma ForTotal(x: Name, it: Iter, body: seq<Stmt>, n: nat, slots: G.Slots, gi: G.GenE, gb: G.GenS, f: Line -> nat, k: Key,
      declared: multiset<Name>, loops: multiset<Name>)
    requires Counts(f, k) && gi == G.Bound(it, n + 4, slots) && gb == G.Block(body, gi.n + 1, slots[x := Ptr(x)])
    requires Sum(f, gi.code) == Within(k, n + 4, gi.n) && Sum(f, gb.code) == Expected(k, gi.n + 1, gb.n, declared, loops)
    ensures var g := G.ForStmt(x, it, body, n, slots);
      Sum(f, g.code) == Expected(k, n, g.n, multiset{x} + declared, multiset{x} + loops) && g.slots == gb.slots
  {
    G.ForUnfold(x, it, body, n, slots, gi, gb);
    ForSum(f, k, x, n, gi, gb, declared, loops);
  }

  lemma SlottedWith(scope: set<Name>, slots: G.Slots, x: Name)
    requires S.Slotted(scope, slots)
    ensures S.Slotted(scope + {x}, slots[x := Ptr(x)])
  {}

  lemma SlottedLess(scope: set<Name>, x: Name, slots: G.Slots)
    requires S.Slotted(scope + {x}, slots)
    ensures S.Slotted(scope, slots)
  {}

  lemma {:induction false} BlockTimes(b: seq<Stmt>, n: nat, slots: G.Slots, scope: set<Name>, f: Line -> nat, k: Key)
    requires Counts(f, k)
    requires AssignsBlock(b, scope) && S.Slotted(scope, slots)
    ensures Sum(f, G.Block(b, n, slots).code) == Expected(k, n, G.Block(b, n, slots).n, DeclaredIn(b), LoopsIn(b))
    ensures S.Slotted(scope, G.Block(b, n, slots).slots)
    decreases b, 2
  {
    if b != [] {
      var g := G.Stmt(b[0], n, slots);
      var rest := G.Block(b[1..], g.n, g.slots);
      StmtTimes(b[0], n, slots, scope, f, k);
      BlockTimes(b[1..], g.n, g.slots, ScopeAfter(b[0], scope), f, k);
      BlockSum(f, k, n, g, rest, Declared(b[0]), Loops(b[0]), DeclaredIn(b[1..]), LoopsIn(b[1..]));
      SlottedAfter(b[0], scope, rest.slots);
    }
  }

  lemma BlockSum(f: Line -> nat, k: Key, n: nat, g: G.GenS, rest: G.GenS,
      d1: multiset<Name>, l1: multiset<Name>, d2: multiset<Name>, l2: multiset<Name>)
    requires n <= g.n <= rest.n && Sum(f, g.code) == Expected(k, n, g.n, d1, l1) && Sum(f, rest.code) == Expected(k, g.n, rest.n, d2, l2)
    ensures Sum(f, g.code + rest.code) == Expected(k, n, rest.n, d1 + d2, l1 + l2)
  {
    SumAppend(f, g.code, rest.code);
    ExpectedAdd(k, n, g.n, rest.n, d1, l1, d2, l2);
  }

  lemma SlottedAfter(s: Stmt, scope: set<Name>, slots: G.Slots)
    requires S.Slotted(ScopeAfter(s, scope), slots)
    ensures S.Slotted(scope, slots)
  {}

  lemma {:induction false} LoopsAreDeclared(b: seq<Stmt>, x: Name)
    ensures LoopsIn(b)[x] <= DeclaredIn(b)[x]
    decreases b, 1
  {
    if b != [] {
      match b[0] {
        case If(_, thn, els) => LoopsAreDeclared(thn, x); LoopsAreDeclared(els, x);
        case While(_, body) => LoopsAreDeclared(body, x);
        case For(_, _, body) => LoopsAreDeclared(body, x);
        case _ =>
      }
      LoopsAreDeclared(b[1..], x);
    }
  }

  // ----- from counts to lines -----

  /** Static single assignment: no two lines define the same name. */
  ghost predicate DefinedOnce(p: Code) {
    forall i, j :: 0 <= i < j < |p| && Defines(p[i]).Some? ==> Defines(p[i]) != Defines(p[j])
  }

  lemma {:induction false} OccursTimes(p: Code, k: Key, i: nat, n: nat)
    requires i < n <= |p| && Defines(p[i]) == Some(k)
    ensures SumTo(Is(k), p, n) >= 1
  {
    if i < n - 1 { OccursTimes(p, k, i, n - 1); }
  }

  lemma {:induction false} TwiceTimes(p: Code, k: Key, i: nat, j: nat, n: nat)
    requires i < j < n <= |p| && Defines(p[i]) == Some(k) && Defines(p[j]) == Some(k)
    ensures SumTo(Is(k), p, n) >= 2
  {
    if j < n - 1 { TwiceTimes(p, k, i, j, n - 1); } else { OccursTimes(p, k, i, n - 1); }
  }

  lemma {:induction false} TimesOccurs(p: Code, k: Key, n: nat) returns (i: nat)
    requires n <= |p| && SumTo(Is(k), p, n) >= 1
    ensures i < n && Defines(p[i]) == Some(k)
  {
    if Defines(p[n - 1]) == Some(k) { i := n - 1; } else { i := TimesOccurs(p, k, n - 1); }
  }

  lemma {:induction false} TimesTwice(p: Code, k: Key, n: nat) returns (i: nat, j: nat)
    requires n <= |p| && SumTo(Is(k), p, n) >= 2
    ensures i < j < n && Defines(p[i]) == Some(k) && Defines(p[j]) == Some(k)
  {
    if Defines(p[n - 1]) == Some(k) {
      j := n - 1;
      i := TimesOccurs(p, k, n - 1);
    } else {
      i, j := TimesTwice(p, k, n - 1);
    }
  }

  lemma MainTimes(program: seq<Stmt>, n: nat, k: Key)
    requires AssignsBlock(program, {})
    ensures Times(k, G.Main(program, n)) == Expected(k, n, G.Block(program, n, map[]).n, DeclaredIn(program), LoopsIn(program))
  {
    assert Counts(Is(k), k);
    BlockTimes(program, n, map[], {}, Is(k), k);
    LastTimes(G.Block(program, n, map[]).code, RetVoid, Is(k), k);
  }

  lemma OnceIfDeclaredOnce(program: seq<Stmt>, n: nat)
    requires AssignsBlock(program, {}) && forall x :: DeclaredIn(program)[x] <= 1
    ensures DefinedOnce(G.Main(program, n))
  {
    var p := G.Main(program, n);
    forall i, j | 0 <= i < j < |p| && Defines(p[i]).Some? ensures Defines(p[i]) != Defines(p[j]) {
      var k := Defines(p[i]).value;
      MainTimes(program, n, k);
      if k.Named? && k.r.CmpOf? { LoopsAreDeclared(program, k.r.x); }
      if Defines(p[j]) == Some(k) { TwiceTimes(p, k, i, j, |p|); }
    }
  }

  /** The emitted code defines every register and label once exactly when the program
      declares every name once. */
  lemma SingleAssignment(program: seq<Stmt>, n: nat)
    requires AssignsBlock(program, {})
    ensures DefinedOnce(G.Main(program, n)) <==> forall x :: DeclaredIn(program)[x] <= 1
  {
    if forall x :: DeclaredIn(program)[x] <= 1 {
      OnceIfDeclaredOnce(program, n);
    } else {
      var x :| DeclaredIn(program)[x] > 1;
      MainTimes(program, n, Named(Ptr(x)));
      var i, j := TimesTwice(G.Main(program, n), Named(Ptr(x)), |G.Main(program, n)|);
    }
  }

  /** Labels come from the counter alone, so they are distinct whatever is declared. */
  lemma LabelsDistinct(program: seq<Stmt>, n: nat)
    requires AssignsBlock(program, {})
    ensures S.LabelsOnce(G.Main(program, n))
  {
    var p := G.Main(program, n);
    forall i: nat, j: nat ensures S.NoTwin(p, i, j) {
      if i < |p| && j < |p| && p[i].LabelLine? && p[i] == p[j] {
        MainTimes(program, n, Number(p[i].l));
        if i < j { TwiceTimes(p, Number(p[i].l), i, j, |p|); }
        if j < i { TwiceTimes(p, Number(p[i].l), j, i, |p|); }
      }
    }
  }
}
