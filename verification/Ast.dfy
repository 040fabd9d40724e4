/** The integer fragment of the language, as the parser hands it to both back ends. */
module Ast {
  import opened Int64

  type Name = string

  datatype UnOp = Neg | BitNot
  datatype BinOp = Add | Sub | Mul | Div | Mod | BitAnd | BitOr | BitXor | Shl | Shr
  datatype CmpOp = Lt | Gt | Le | Ge

  datatype Expr =
    | LitInt(n: int64)
    | Ident(name: Name)
    | UnOp(uop: UnOp, inner: Expr)
    | BinOp(op: BinOp, left: Expr, right: Expr)

  datatype Cond =
    | LitBool(b: bool)
    | Not(negated: Cond)
    | Cmp(cop: CmpOp, lhs: Expr, rhs: Expr)

  /** What a `for` runs over: an integer, or a range with both bounds. */
  datatype Iter =
    | Upto(end: Expr)
    | Range(start: Expr, end: Expr)

  datatype Stmt =
    | Decl(name: Name, value: Expr, isConst: bool)
    | Assign(name: Name, value: Expr)
    | Print(arg: Expr)
    | If(cond: Cond, thn: seq<Stmt>, els: seq<Stmt>)
    | While(cond: Cond, body: seq<Stmt>)
    | For(name: Name, iter: Iter, body: seq<Stmt>)

  predicate CompareInt(op: CmpOp, a: int, b: int) {
    match op
    case Lt => a < b
    case Gt => a > b
    case Le => a <= b
    case Ge => a >= b
  }

  // ----- static well-formedness -----

  /** Names in scope after a statement: only a declaration adds one. */
  function ScopeAfter(s: Stmt, scope: set<Name>): set<Name> {
    if s.Decl? then scope + {s.name} else scope
  }

  /** No declaration hides a visible name and every assigned name is visible. */
  predicate Scoped(s: Stmt, scope: set<Name>)
    decreases s, 0
  {
    match s
    case Decl(x, _, _) => x !in scope
    case Assign(x, _) => x in scope
    case Print(_) => true
    case If(_, thn, els) => ScopedBlock(thn, scope) && ScopedBlock(els, scope)
    case While(_, body) => ScopedBlock(body, scope)
    case For(x, _, body) => x !in scope && ScopedBlock(body, scope + {x})
  }

  predicate ScopedBlock(b: seq<Stmt>, scope: set<Name>)
    decreases b, 1
  {
    b == [] || (Scoped(b[0], scope) && ScopedBlock(b[1..], ScopeAfter(b[0], scope)))
  }

  /** Every assigned name is visible. */
  predicate Assigns(s: Stmt, scope: set<Name>)
    decreases s, 0
  {
    match s
    case Assign(x, _) => x in scope
    case If(_, thn, els) => AssignsBlock(thn, scope) && AssignsBlock(els, scope)
    case While(_, body) => AssignsBlock(body, scope)
    case For(x, _, body) => AssignsBlock(body, scope + {x})
    case _ => true
  }

  predicate AssignsBlock(b: seq<Stmt>, scope: set<Name>)
    decreases b, 1
  {
    b == [] || (Assigns(b[0], scope) && AssignsBlock(b[1..], ScopeAfter(b[0], scope)))
  }

  /** Every name read is visible. */
  predicate ClosedExpr(e: Expr, scope: set<Name>) {
    match e
    case LitInt(_) => true
    case Ident(x) => x in scope
    case UnOp(_, inner) => ClosedExpr(inner, scope)
    case BinOp(_, l, r) => ClosedExpr(l, scope) && ClosedExpr(r, scope)
  }

  predicate ClosedCond(c: Cond, scope: set<Name>) {
    match c
    case LitBool(_) => true
    case Not(d) => ClosedCond(d, scope)
    case Cmp(_, l, r) => ClosedExpr(l, scope) && ClosedExpr(r, scope)
  }

  predicate ClosedIter(it: Iter, scope: set<Name>) {
    match it
    case Upto(e) => ClosedExpr(e, scope)
    case Range(s, e) => ClosedExpr(s, scope) && ClosedExpr(e, scope)
  }

  predicate Closed(s: Stmt, scope: set<Name>)
    decreases s, 0
  {
    match s
    case Decl(_, e, _) => ClosedExpr(e, scope)
    case Assign(x, e) => x in scope && ClosedExpr(e, scope)
    case Print(e) => ClosedExpr(e, scope)
    case If(c, thn, els) => ClosedCond(c, scope) && ClosedBlock(thn, scope) && ClosedBlock(els, scope)
    case While(c, body) => ClosedCond(c, scope) && ClosedBlock(body, scope)
    case For(x, it, body) => ClosedIter(it, scope) && ClosedBlock(body, scope + {x})
  }

  predicate ClosedBlock(b: seq<Stmt>, scope: set<Name>)
    decreases b, 1
  {
    b == [] || (Closed(b[0], scope) && ClosedBlock(b[1..], ScopeAfter(b[0], scope)))
  }

  /** Names declared anywhere in a statement, with multiplicity. */
  function Declared(s: Stmt): multiset<Name>
    decreases s, 0
  {
    match s
    case Decl(x, _, _) => multiset{x}
    case Assign(_, _) => multiset{}
    case Print(_) => multiset{}
    case If(_, thn, els) => DeclaredIn(thn) + DeclaredIn(els)
    case While(_, body) => DeclaredIn(body)
    case For(x, _, body) => multiset{x} + DeclaredIn(body)
  }

  function DeclaredIn(b: seq<Stmt>): multiset<Name>
    decreases b, 1
  {
    if b == [] then multiset{} else Declared(b[0]) + DeclaredIn(b[1..])
  }

  /** No name is declared twice, nor one that is visible from outside. */
  ghost predicate Once(names: multiset<Name>, scope: set<Name>) {
    forall x :: names[x] <= if x in scope then 0 else 1
  }

  lemma {:induction false} ClosedAssigns(s: Stmt, scope: set<Name>)
    requires Closed(s, scope)
    ensures Assigns(s, scope)
    decreases s, 0
  {
    match s
    case If(_, thn, els) => ClosedBlockAssigns(thn, scope); ClosedBlockAssigns(els, scope);
    case While(_, body) => ClosedBlockAssigns(body, scope);
    case For(x, _, body) => ClosedBlockAssigns(body, scope + {x});
    case _ =>
  }

  lemma {:induction false} ClosedBlockAssigns(b: seq<Stmt>, scope: set<Name>)
    requires ClosedBlock(b, scope)
    ensures AssignsBlock(b, scope)
    decreases b, 1
  {
    if b != [] {
      ClosedAssigns(b[0], scope);
      ClosedBlockAssigns(b[1..], ScopeAfter(b[0], scope));
    }
  }

  /** Where every name is declared once, none is hidden. */
  lemma {:induction false} OnceScoped(s: Stmt, scope: set<Name>)
    requires Assigns(s, scope) && Once(Declared(s), scope)
    ensures Scoped(s, scope)
    decreases s, 0
  {
    match s
    case Decl(x, _, _) => assert Declared(s)[x] == 1;
    case If(_, thn, els) =>
      OnceParts(DeclaredIn(thn), DeclaredIn(els), scope, {});
      OnceBlockScoped(thn, scope);
      OnceBlockScoped(els, scope);
    case While(_, body) => OnceBlockScoped(body, scope);
    case For(x, _, body) =>
      OnceParts(multiset{x}, DeclaredIn(body), scope, {x});
      assert multiset{x}[x] == 1;
      OnceBlockScoped(body, scope + {x});
    case _ =>
  }

  lemma {:induction false} OnceBlockScoped(b: seq<Stmt>, scope: set<Name>)
    requires AssignsBlock(b, scope) && Once(DeclaredIn(b), scope)
    ensures ScopedBlock(b, scope)
    decreases b, 1
  {
    if b != [] {
      OnceParts(Declared(b[0]), DeclaredIn(b[1..]), scope, ScopeAfter(b[0], scope) - scope);
      OnceScoped(b[0], scope);
      assert scope + (ScopeAfter(b[0], scope) - scope) == ScopeAfter(b[0], scope);
      OnceBlockScoped(b[1..], ScopeAfter(b[0], scope));
    }
  }

  lemma OnceParts(a: multiset<Name>, b: multiset<Name>, scope: set<Name>, more: set<Name>)
    requires Once(a + b, scope) && forall x :: x in more ==> a[x] > 0
    ensures Once(a, scope) && Once(b, scope + more)
  {
    forall x ensures a[x] <= if x in scope then 0 else 1 { assert (a + b)[x] == a[x] + b[x]; }
    forall x ensures b[x] <= if x in scope + more then 0 else 1 { assert (a + b)[x] == a[x] + b[x]; }
  }

  // ----- names that occur -----

  function NamesOf(e: Expr): set<Name> {
    match e
    case LitInt(_) => {}
    case Ident(x) => {x}
    case UnOp(_, inner) => NamesOf(inner)
    case BinOp(_, l, r) => NamesOf(l) + NamesOf(r)
  }

  function NamesOfCond(c: Cond): set<Name> {
    match c
    case LitBool(_) => {}
    case Not(d) => NamesOfCond(d)
    case Cmp(_, l, r) => NamesOf(l) + NamesOf(r)
  }

  function NamesOfIter(it: Iter): set<Name> {
    match it
    case Upto(e) => NamesOf(e)
    case Range(s, e) => NamesOf(s) + NamesOf(e)
  }

  /** Every name that a statement reads or assigns, loop variables apart. */
  function Used(s: Stmt): set<Name>
    decreases s, 0
  {
    match s
    case Decl(_, e, _) => NamesOf(e)
    case Assign(x, e) => {x} + NamesOf(e)
    case Print(e) => NamesOf(e)
    case If(c, thn, els) => NamesOfCond(c) + UsedIn(thn) + UsedIn(els)
    case While(c, body) => NamesOfCond(c) + UsedIn(body)
    case For(x, it, body) => NamesOfIter(it) + (UsedIn(body) - {x})
  }

  function UsedIn(b: seq<Stmt>): set<Name>
    decreases b, 1
  {
    if b == [] then {} else Used(b[0]) + UsedIn(b[1..])
  }

  lemma {:induction false} VisibleExpr(e: Expr, scope: set<Name>)
    ensures ClosedExpr(e, scope) <==> NamesOf(e) <= scope
  {
    match e
    case UnOp(_, inner) => VisibleExpr(inner, scope);
    case BinOp(_, l, r) =>
      VisibleExpr(l, scope);
      VisibleExpr(r, scope);
    case _ =>
  }

  lemma {:induction false} VisibleCond(c: Cond, scope: set<Name>)
    ensures ClosedCond(c, scope) <==> NamesOfCond(c) <= scope
  {
    match c
    case LitBool(_) =>
    case Not(d) => VisibleCond(d, scope);
    case Cmp(_, l, r) =>
      VisibleExpr(l, scope);
      VisibleExpr(r, scope);
  }

  lemma VisibleIter(it: Iter, scope: set<Name>)
    ensures ClosedIter(it, scope) <==> NamesOfIter(it) <= scope
  {
    match it
    case Upto(e) => VisibleExpr(e, scope);
    case Range(s, e) =>
      VisibleExpr(s, scope);
      VisibleExpr(e, scope);
  }

  /** A program that reads and assigns names of a scope only reads and assigns visible names in it; and
      behind a declaration its name is visible. */
  lemma {:induction false} ClosedWhenVisible(s: Stmt, scope: set<Name>)
    requires Used(s) <= scope
    ensures Closed(s, scope)
    decreases s, 0
  {
    match s
    case Decl(_, e, _) => VisibleExpr(e, scope);
    case Assign(_, e) => VisibleExpr(e, scope);
    case Print(e) => VisibleExpr(e, scope);
    case If(c, thn, els) =>
      VisibleCond(c, scope);
      ClosedBlockWhenVisible(thn, scope);
      ClosedBlockWhenVisible(els, scope);
    case While(c, body) =>
      VisibleCond(c, scope);
      ClosedBlockWhenVisible(body, scope);
    case For(x, it, body) =>
      VisibleIter(it, scope);
      ClosedBlockWhenVisible(body, scope + {x});
  }

  lemma {:induction false} ClosedBlockWhenVisible(b: seq<Stmt>, scope: set<Name>)
    requires UsedIn(b) <= scope
    ensures ClosedBlock(b, scope)
    decreases b, 1
  {
    if b != [] {
      ClosedWhenVisible(b[0], scope);
      ClosedBlockWhenVisible(b[1..], ScopeAfter(b[0], scope));
    }
  }

  lemma DeclaredIsVisible(x: Name, e: Expr, isConst: bool, rest: seq<Stmt>, scope: set<Name>)
    requires NamesOf(e) <= scope
    ensures ClosedBlock([Decl(x, e, isConst)] + rest, scope) <==> ClosedBlock(rest, scope + {x})
  {
    VisibleExpr(e, scope);
    assert ([Decl(x, e, isConst)] + rest)[1..] == rest;
  }
}
