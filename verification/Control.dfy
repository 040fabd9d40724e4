/** Control flow of the interpreter with its frame stack: calls, methods, init blocks, loops, early
    returns, try/catch and match. `fuel` bounds the depth of the run. */
module Control {
  import opened Wrappers

  type Name = string

  /** An instance keeps its fields by position. */
  datatype Val = Nothing | Num(n: int) | Bool(b: bool) | Res(ok: bool, inner: Val) | Obj(cls: Name, fields: seq<Val>)

  datatype Op = Add | Less

  datatype Pattern = Ignore | Bind(x: Name) | Is(n: int)

  datatype Arm = Arm(pattern: Pattern, guard: Option<Expr>, body: Expr)

  datatype Expr = Lit(v: Val) | Var(x: Name) | Binary(op: Op, l: Expr, r: Expr) | Store(x: Name, e: Expr)
    | Call(f: Name, args: seq<Expr>) | New(cls: Name, args: seq<Expr>) | Invoke(obj: Expr, m: Name, args: seq<Expr>)
    | Block(body: seq<Stmt>) | Cond(c: Expr, t: Expr, other: Option<Expr>) | Make(ok: bool, e: Expr) | Try(e: Expr)
    | TryCatch(body: seq<Stmt>, x: Name, handler: seq<Stmt>) | Match(e: Expr, arms: seq<Arm>)

  datatype Stmt = Decl(x: Name, e: Expr) | Eval(e: Expr) | Return(result: Option<Expr>) | For(x: Name, e: Expr, body: seq<Stmt>)
    | While(c: Expr, body: seq<Stmt>) | Loop(body: seq<Stmt>) | If(c: Expr, body: seq<Stmt>, other: Else)
    | Assign(x: Name, e: Expr)

  datatype Else = NoElse | Else(body: seq<Stmt>)

  datatype Fn = Fn(params: seq<Name>, body: seq<Stmt>)

  datatype Class = Class(parent: Option<Name>, params: seq<Name>, fields: seq<Name>, init: seq<Stmt>, methods: map<Name, Fn>)

  datatype Program = Program(functions: map<Name, Fn>, classes: map<Name, Class>)

  // ----- states -----

  type Frame = map<Name, Val>

  type pos = n: nat | n > 0 witness 1

  /** A branch that leaves frames on the stack: a guard that returned, or a receiver whose error was
      forgotten after it had passed some open frames. */
  datatype Leak = ReturningGuard | FailedReceiver(open: pos)

  /** `left` records the branches of that kind that a run has taken; the source keeps no such record. */
  datatype State = State(frames: seq<Frame>, moved: seq<set<Name>>, globals: map<Name, Val>, left: seq<Leak>)

  predicate Sane(s: State) { s.frames != [] && |s.moved| == |s.frames| }

  function Push(s: State): State { s.(frames := s.frames + [map[]], moved := s.moved + [{}]) }

  function Pop(s: State): State
    requires Sane(s)
  {
    s.(frames := s.frames[..|s.frames| - 1], moved := s.moved[..|s.moved| - 1])
  }

  /** Inserts into the top frame. */
  function Insert(s: State, x: Name, v: Val): State
    requires Sane(s)
  {
    s.(frames := s.frames[|s.frames| - 1 := s.frames[|s.frames| - 1][x := v]])
  }

  function InsertAll(s: State, xs: seq<Name>, vs: seq<Val>, i: nat): (t: State)
    requires Sane(s) && i <= |xs|
    ensures Sane(t) && |t.frames| == |s.frames| && t.left == s.left
    decreases |xs| - i
  {
    if i == |xs| then s else InsertAll(Insert(s, xs[i], if i < |vs| then vs[i] else Nothing), xs, vs, i + 1)
  }

  function Get(frames: seq<Frame>, x: Name): Option<Val> {
    if frames == [] then None
    else
      var top := frames[|frames| - 1];
      if x in top then Some(top[x]) else Get(frames[..|frames| - 1], x)
  }

  function GetVar(s: State, x: Name): Option<Val> {
    var v := Get(s.frames, x);
    if v.Some? then v else if x in s.globals then Some(s.globals[x]) else None
  }

  function Update(frames: seq<Frame>, x: Name, v: Val): (r: seq<Frame>)
    ensures |r| == |frames| && forall i :: 0 <= i < |r| ==> r[i].Keys == frames[i].Keys
  {
    if frames == [] then []
    else
      var n := |frames| - 1;
      if x in frames[n] then
        assert frames[n][x := v].Keys == frames[n].Keys;
        frames[n := frames[n][x := v]]
      else Update(frames[..n], x, v) + [frames[n]]
  }

  /** The innermost frame that holds the name, else the globals, else the top frame. */
  function SetVar(s: State, x: Name, v: Val): State
    requires Sane(s)
  {
    if Get(s.frames, x).Some? then s.(frames := Update(s.frames, x, v))
    else if x in s.globals then s.(globals := s.globals[x := v])
    else Insert(s, x, v)
  }

  function Copyable(v: Val): bool {
    match v case Res(_, inner) => Copyable(inner) case Obj(_, _) => false case _ => true
  }

  function MarkMoved(s: State, e: Expr, v: Val): State
    requires Sane(s)
  {
    if Copyable(v) || !e.Var? then s
    else s.(moved := s.moved[|s.moved| - 1 := s.moved[|s.moved| - 1] + {e.x}])
  }

  function Truthy(v: Val): bool { match v case Bool(b) => b case Num(n) => n != 0 case Nothing => false case _ => true }

  // ----- what every run keeps -----

  /** How many frames the branches leave. */
  function Total(l: seq<Leak>): nat {
    if l == [] then 0
    else Total(l[..|l| - 1]) + match l[|l| - 1] case ReturningGuard => 1 case FailedReceiver(open) => open
  }

  lemma {:induction false} TotalRest(l: seq<Leak>, m: seq<Leak>)
    ensures Total(l + m) == Total(l) + Total(m) && Total(m) >= |m|
  {
    if m == [] {
      assert l + m == l;
    } else {
      TotalRest(l, m[..|m| - 1]);
      assert (l + m)[..|l + m| - 1] == l + m[..|m| - 1];
    }
  }

  function Ask(s: State, t: State, u: bool): bool { true }

  /** Frames below the top neither gain nor lose a name, and the top one loses none; the stack is
      higher by what the branches recorded on the way leave, and by the frames still open. */
  ghost predicate Grows(s: State, t: State, open: nat) {
    forall u {:trigger Ask(s, t, u)} :: Ask(s, t, u) ==> GrowsNow(s, t, open)
  }

  ghost predicate GrowsNow(s: State, t: State, open: nat) {
    && |s.frames| <= |t.frames| && (forall i :: 0 <= i < |s.frames| - 1 ==> t.frames[i].Keys == s.frames[i].Keys)
    && (s.frames != [] ==> s.frames[|s.frames| - 1].Keys <= t.frames[|s.frames| - 1].Keys)
    && s.left <= t.left && |t.frames| == |s.frames| + open + Total(t.left) - Total(s.left)
  }

  lemma GrowsMeans(s: State, t: State, open: nat)
    ensures Grows(s, t, open) <==> GrowsNow(s, t, open)
  {
    assert Ask(s, t, true);
  }

  lemma GrowsTwice(s: State, t: State, u: State, open: nat)
    requires Grows(s, t, 0) && Grows(t, u, open)
    ensures Grows(s, u, open)
  {
    GrowsMeans(s, t, 0);
    GrowsMeans(t, u, open);
    GrowsMeans(s, u, open);
  }

  /** A normal exit. */
  ghost predicate Leads(s: State, t: State) { Sane(t) && Grows(s, t, 0) }

  /** An error, which leaves the frames that were open. */
  ghost predicate Breaks(s: State, t: State, open: nat) { Sane(t) && Grows(s, t, open) }

  lemma Stays(s: State)
    requires Sane(s)
    ensures Leads(s, s)
  {
    GrowsMeans(s, s, 0);
  }

  lemma LeadsTwice(s: State, t: State, u: State)
    requires Leads(s, t) && Leads(t, u)
    ensures Leads(s, u)
  {
    GrowsTwice(s, t, u, 0);
  }

  lemma LeadsBreaks(s: State, t: State, u: State, open: nat)
    requires Leads(s, t) && Breaks(t, u, open)
    ensures Breaks(s, u, open)
  {
    GrowsTwice(s, t, u, open);
  }

  lemma InsertLeads(s: State, x: Name, v: Val)
    requires Sane(s)
    ensures Leads(s, Insert(s, x, v))
  {
    GrowsMeans(s, Insert(s, x, v), 0);
  }

  lemma {:induction false} InsertAllLeads(s: State, xs: seq<Name>, vs: seq<Val>, i: nat)
    requires Sane(s) && i <= |xs|
    ensures Leads(s, InsertAll(s, xs, vs, i))
    decreases |xs| - i
  {
    if i == |xs| {
      Stays(s);
    } else {
      var t := Insert(s, xs[i], if i < |vs| then vs[i] else Nothing);
      InsertLeads(s, xs[i], if i < |vs| then vs[i] else Nothing);
      InsertAllLeads(t, xs, vs, i + 1);
      LeadsTwice(s, t, InsertAll(t, xs, vs, i + 1));
    }
  }

  lemma SetVarLeads(s: State, x: Name, v: Val)
    requires Sane(s)
    ensures Leads(s, SetVar(s, x, v))
  {
    if Get(s.frames, x).None? && x !in s.globals { InsertLeads(s, x, v); }
    GrowsMeans(s, SetVar(s, x, v), 0);
  }

  lemma MarkMovedLeads(s: State, e: Expr, v: Val)
    requires Sane(s)
    ensures Leads(s, MarkMoved(s, e, v))
  {
    GrowsMeans(s, MarkMoved(s, e, v), 0);
  }

  lemma PopLeads(s: State, t: State)
    requires Sane(s) && Leads(Push(s), t)
    ensures Leads(s, Pop(t))
  {
    PushBreaks(s, t, 0);
  }

  lemma PushBreaks(s: State, t: State, open: nat)
    requires Sane(s) && Breaks(Push(s), t, open)
    ensures Breaks(s, t, open + 1) && Breaks(s, Pop(t), open)
  {
    GrowsMeans(Push(s), t, open);
    GrowsMeans(s, t, open + 1);
    GrowsMeans(s, Pop(t), open);
    assert t.left == s.left + t.left[|s.left|..];
    TotalRest(s.left, t.left[|s.left|..]);
    forall i | 0 <= i < |s.frames| ensures t.frames[i].Keys == s.frames[i].Keys {
      assert Push(s).frames[i] == s.frames[i];
    }
  }

  // ----- evaluation -----

  datatype Flow = Value(v: Val) | Returns(v: Val)

  /** A run is done, fails with an error that has passed some frames without popping them, or needs
      more fuel. */
  datatype Out<+T> = Done(value: T, s: State) | Fail(s: State, open: nat) | Stuck

  function Binop(op: Op, l: Val, r: Val): Option<Val> {
    if !l.Num? || !r.Num? then None else match op case Add => Some(Num(l.n + r.n)) case Less => Some(Bool(l.n < r.n))
  }

  function Matches(p: Pattern, v: Val): bool { match p case Ignore => true case Bind(_) => true case Is(n) => v == Num(n) }

  function BindArm(s: State, p: Pattern, v: Val): (t: State)
    requires Sane(s)
    ensures Sane(t) && t.left == s.left
  {
    if p.Bind? then SetVar(s, p.x, v) else s
  }

  function FindMethod(p: Program, cls: Name, m: Name): Option<Fn> {
    if cls !in p.classes then None
    else if m in p.classes[cls].methods then Some(p.classes[cls].methods[m])
    else
      match p.classes[cls].parent
      case None => None
      case Some(c) => if c in p.classes && m in p.classes[c].methods then Some(p.classes[c].methods[m]) else None
  }

  /** A finished run leads on from where it started, and an error breaks off. */
  ghost predicate Keeps<T>(s: State, r: Out<T>) {
    match r case Done(_, t) => Leads(s, t) case Fail(t, k) => Breaks(s, t, k) case Stuck => true
  }

  lemma Chain<T>(s: State, t: State, r: Out<T>)
    requires Leads(s, t) && Keeps(t, r)
    ensures Keeps(s, r)
  {
    match r
    case Done(_, u) => LeadsTwice(s, t, u);
    case Fail(u, k) => LeadsBreaks(s, t, u, k);
    case Stuck =>
  }

  /** No frame is left behind. */
  predicate Even<T>(s: State, r: Out<T>) { !r.Stuck? ==> r.s.left == s.left }

  /** No error passes an open frame. */
  predicate Shallow<T>(r: Out<T>) { r.Fail? ==> r.open == 0 }

  // ----- programs that leave no frame behind -----

  /** Its own evaluation opens no frame. */
  predicate Flat(e: Expr) {
    match e
    case Lit(_) => true
    case Var(_) => true
    case Binary(_, l, r) => Flat(l) && Flat(r)
    case Store(_, f) => Flat(f)
    case Cond(c, t, other) => Flat(c) && Flat(t) && (other.Some? ==> Flat(other.value))
    case Make(_, f) => Flat(f)
    case Try(f) => Flat(f)
    case _ => false
  }

  /** No match arm has a guard, and receivers of methods open no frame. */
  predicate Clean(e: Expr)
    decreases e, 0
  {
    match e
    case Lit(_) => true
    case Var(_) => true
    case Binary(_, l, r) => Clean(l) && Clean(r)
    case Store(_, f) => Clean(f)
    case Call(_, args) => CleanArgs(args)
    case New(_, args) => CleanArgs(args)
    case Invoke(obj, _, args) => Flat(obj) && Clean(obj) && CleanArgs(args)
    case Block(body) => CleanBody(body)
    case Cond(c, t, other) => Clean(c) && Clean(t) && (other.Some? ==> Clean(other.value))
    case Make(_, f) => Clean(f)
    case Try(f) => Clean(f)
    case TryCatch(body, _, handler) => CleanBody(body) && CleanBody(handler)
    case Match(f, arms) => Clean(f) && CleanArms(arms)
  }

  predicate CleanArgs(args: seq<Expr>)
    decreases args, 1
  {
    forall i :: 0 <= i < |args| ==> Clean(args[i])
  }

  predicate CleanArms(arms: seq<Arm>)
    decreases arms, 1
  {
    forall i :: 0 <= i < |arms| ==> CleanArm(arms[i])
  }

  predicate CleanArm(arm: Arm)
    decreases arm, 0
  {
    arm.guard == None && Clean(arm.body)
  }

  predicate CleanStmt(st: Stmt)
    decreases st, 0
  {
    match st
    case Decl(_, e) => Clean(e)
    case Eval(e) => Clean(e)
    case Return(r) => r.Some? ==> Clean(r.value)
    case For(_, e, body) => Clean(e) && CleanBody(body)
    case While(c, body) => Clean(c) && CleanBody(body)
    case Loop(body) => CleanBody(body)
    case If(c, body, other) => Clean(c) && CleanBody(body) && (other.Else? ==> CleanBody(other.body))
    case Assign(_, e) => Clean(e)
  }

  predicate CleanBody(body: seq<Stmt>)
    decreases body, 1
  {
    forall i :: 0 <= i < |body| ==> CleanStmt(body[i])
  }

  ghost predicate CleanProgram(p: Program) {
    && (forall f :: f in p.functions ==> CleanBody(p.functions[f].body))
    && (forall c :: c in p.classes ==> CleanBody(p.classes[c].init))
    && (forall c, m :: c in p.classes && m in p.classes[c].methods ==> CleanBody(p.classes[c].methods[m].body))
  }

  // ----- statements -----

  function Exec(p: Program, st: Stmt, s: State, fuel: nat): (r: Out<Option<Val>>)
    requires Sane(s)
    ensures Keeps(s, r) && (CleanProgram(p) && CleanStmt(st) ==> Even(s, r))
    decreases fuel, 3
  {
    if fuel == 0 then Stuck
    else
      match st
      case Decl(x, e) => ExecDecl(p, x, e, s, fuel)
      case Eval(e) => ExecEval(p, e, s, fuel)
      case Return(e) => ExecReturn(p, e, s, fuel)
      case For(x, e, body) => ExecFor(p, x, e, body, s, fuel)
      case While(c, body) => ExecWhile(p, c, body, s, fuel)
      case Loop(body) => ExecLoop(p, body, s, fuel)
      case If(c, body, other) => ExecIf(p, c, body, other, s, fuel)
      case Assign(x, e) => ExecAssign(p, x, e, s, fuel)
  }

  function ExecDecl(p: Program, x: Name, e: Expr, s: State, fuel: nat): (r: Out<Option<Val>>)
    requires Sane(s) && fuel > 0
    ensures Keeps(s, r) && (CleanProgram(p) && Clean(e) ==> Even(s, r))
    ensures r.Done? && r.value == None ==> x in r.s.frames[|r.s.frames| - 1]
    decreases fuel, 1
  {
    match EvalExpr(p, e, s, fuel - 1)
    case Done(Value(v), t) =>
      var u := MarkMoved(t, e, v);
      MarkMovedLeads(t, e, v);
      InsertLeads(u, x, v);
      LeadsTwice(s, t, u);
      LeadsTwice(s, u, Insert(u, x, v));
      Done(None, Insert(u, x, v))
    case Done(Returns(v), t) => Done(Some(v), t)
    case Fail(t, k) => Fail(t, k)
    case Stuck => Stuck
  }

  function ExecEval(p: Program, e: Expr, s: State, fuel: nat): (r: Out<Option<Val>>)
    requires Sane(s) && fuel > 0
    ensures Keeps(s, r) && (CleanProgram(p) && Clean(e) ==> Even(s, r))
    decreases fuel, 1
  {
    match EvalExpr(p, e, s, fuel - 1)
    case Done(Value(_), t) => Done(None, t)
    case Done(Returns(v), t) => Done(Some(v), t)
    case Fail(t, k) => Fail(t, k)
    case Stuck => Stuck
  }

  function ExecReturn(p: Program, e: Option<Expr>, s: State, fuel: nat): (r: Out<Option<Val>>)
    requires Sane(s) && fuel > 0
    ensures Keeps(s, r) && (CleanProgram(p) && (e.Some? ==> Clean(e.value)) ==> Even(s, r))
    decreases fuel, 1
  {
    match e
    case None => Stays(s); Done(Some(Nothing), s)
    case Some(x) =>
      match EvalExpr(p, x, s, fuel - 1)
      case Done(Value(v), t) => MarkMovedLeads(t, x, v); LeadsTwice(s, t, MarkMoved(t, x, v)); Done(Some(v), MarkMoved(t, x, v))
      case Done(Returns(v), t) => Done(Some(v), t)
      case Fail(t, k) => Fail(t, k)
      case Stuck => Stuck
  }

  function ExecAssign(p: Program, x: Name, e: Expr, s: State, fuel: nat): (r: Out<Option<Val>>)
    requires Sane(s) && fuel > 0
    ensures Keeps(s, r) && (CleanProgram(p) && Clean(e) ==> Even(s, r))
    decreases fuel, 1
  {
    match EvalExpr(p, e, s, fuel - 1)
    case Done(Value(v), t) =>
      var u := MarkMoved(t, e, v);
      MarkMovedLeads(t, e, v);
      SetVarLeads(u, x, v);
      LeadsTwice(s, t, u);
      LeadsTwice(s, u, SetVar(u, x, v));
      Done(None, SetVar(u, x, v))
    case Done(Returns(v), t) => Done(Some(v), t)
    case Fail(t, k) => Fail(t, k)
    case Stuck => Stuck
  }

  /** A list of statements, up to the first that returns. */
  function ExecBody(p: Program, body: seq<Stmt>, s: State, fuel: nat): (r: Out<Option<Val>>)
    requires Sane(s)
    ensures Keeps(s, r) && (CleanProgram(p) && CleanBody(body) ==> Even(s, r))
    decreases fuel, 4, |body|
  {
    if body == [] then Stays(s); Done(None, s)
    else
      match Exec(p, body[0], s, fuel)
      case Done(None, t) =>
        var r := ExecBody(p, body[1..], t, fuel);
        Chain(s, t, r);
        r
      case r => r
  }

  /** A body in a frame of its own, which an error leaves open. */
  function Scope(p: Program, xs: seq<Name>, vs: seq<Val>, body: seq<Stmt>, s: State, fuel: nat): (r: Out<Option<Val>>)
    requires Sane(s)
    ensures Keeps(s, r) && (CleanProgram(p) && CleanBody(body) ==> Even(s, r))
    decreases fuel, 5
  {
    var u := InsertAll(Push(s), xs, vs, 0);
    InsertAllLeads(Push(s), xs, vs, 0);
    var r := ExecBody(p, body, u, fuel);
    Chain(Push(s), u, r);
    match r
    case Done(v, t) => PopLeads(s, t); Done(v, Pop(t))
    case Fail(t, k) => PushBreaks(s, t, k); Fail(t, k + 1)
    case Stuck => Stuck
  }

  function ExecIf(p: Program, c: Expr, body: seq<Stmt>, other: Else, s: State, fuel: nat): (r: Out<Option<Val>>)
    requires Sane(s) && fuel > 0
    ensures Keeps(s, r) && (CleanProgram(p) && Clean(c) && CleanBody(body) && (other.Else? ==> CleanBody(other.body)) ==> Even(s, r))
    decreases fuel, 1
  {
    match EvalExpr(p, c, s, fuel - 1)
    case Done(Value(v), t) =>
      if !Truthy(v) && other.NoElse? then Done(None, t)
      else
        var r := Scope(p, [], [], if Truthy(v) then body else other.body, t, fuel - 1);
        Chain(s, t, r);
        r
    case Done(Returns(v), t) => Done(Some(v), t)
    case Fail(t, k) => Fail(t, k)
    case Stuck => Stuck
  }

  function ExecWhile(p: Program, c: Expr, body: seq<Stmt>, s: State, fuel: nat): (r: Out<Option<Val>>)
    requires Sane(s) && fuel > 0
    ensures Keeps(s, r) && (CleanProgram(p) && Clean(c) && CleanBody(body) ==> Even(s, r))
    decreases fuel, 1
  {
    match EvalExpr(p, c, s, fuel - 1)
    case Done(Value(v), t) =>
      if !Truthy(v) then Done(None, t)
      else
        (match Scope(p, [], [], body, t, fuel - 1)
        case Done(None, u) =>
          var r := if fuel == 1 then Stuck else ExecWhile(p, c, body, u, fuel - 1);
          LeadsTwice(s, t, u);
          Chain(s, u, r);
          r
        case r => Chain(s, t, r); r)
    case Done(Returns(v), t) => Done(Some(v), t)
    case Fail(t, k) => Fail(t, k)
    case Stuck => Stuck
  }

  function ExecLoop(p: Program, body: seq<Stmt>, s: State, fuel: nat): (r: Out<Option<Val>>)
    requires Sane(s) && fuel > 0
    ensures Keeps(s, r) && (CleanProgram(p) && CleanBody(body) ==> Even(s, r))
    decreases fuel, 1
  {
    match Scope(p, [], [], body, s, fuel - 1)
    case Done(None, t) =>
      var r := if fuel == 1 then Stuck else ExecLoop(p, body, t, fuel - 1);
      Chain(s, t, r);
      r
    case r => r
  }

  function ExecFor(p: Program, x: Name, e: Expr, body: seq<Stmt>, s: State, fuel: nat): (r: Out<Option<Val>>)
    requires Sane(s) && fuel > 0
    ensures Keeps(s, r) && (CleanProgram(p) && Clean(e) && CleanBody(body) ==> Even(s, r))
    decreases fuel, 1
  {
    match EvalExpr(p, e, s, fuel - 1)
    case Done(Value(v), t) =>
      if !v.Num? then Fail(t, 0)
      else
        var r := Rounds(p, x, 0, v.n, body, t, fuel - 1);
        Chain(s, t, r);
        r
    case Done(Returns(v), t) => Done(Some(v), t)
    case Fail(t, k) => Fail(t, k)
    case Stuck => Stuck
  }

  function Rounds(p: Program, x: Name, i: int, end: int, body: seq<Stmt>, s: State, fuel: nat): (r: Out<Option<Val>>)
    requires Sane(s)
    ensures Keeps(s, r) && (CleanProgram(p) && CleanBody(body) ==> Even(s, r))
    decreases fuel, 1
  {
    if fuel == 0 then Stuck
    else if i >= end then Stays(s); Done(None, s)
    else
      match Scope(p, [x], [Num(i)], body, s, fuel - 1)
      case Done(None, t) =>
        var r := Rounds(p, x, i + 1, end, body, t, fuel - 1);
        Chain(s, t, r);
        r
      case r => r
  }

  // ----- expressions -----

  function EvalExpr(p: Program, e: Expr, s: State, fuel: nat): (r: Out<Flow>)
    requires Sane(s)
    ensures Keeps(s, r) && (CleanProgram(p) && Clean(e) ==> Even(s, r)) && (Flat(e) ==> Shallow(r))
    decreases fuel, 3
  {
    if fuel == 0 then Stuck
    else if Opens(e) then EvalOpening(p, e, s, fuel)
    else
      match e
      case Binary(op, l, r) => EvalBinary(p, op, l, r, s, fuel)
      case Store(x, f) => EvalStore(p, x, f, s, fuel)
      case Cond(c, t, other) => EvalCond(p, c, t, other, s, fuel)
      case Make(ok, f) => EvalMake(p, ok, f, s, fuel)
      case Try(f) => EvalTry(p, f, s, fuel)
      case Lit(_) => EvalAtom(e, s)
      case Var(_) => EvalAtom(e, s)
  }

  function EvalAtom(e: Expr, s: State): (r: Out<Flow>)
    requires Sane(s) && (e.Lit? || e.Var?)
    ensures Keeps(s, r) && Even(s, r) && Shallow(r)
  {
    Stays(s);
    match e
    case Lit(v) => Done(Value(v), s)
    case Var(x) => match GetVar(s, x) case Some(v) => Done(Value(v), s) case None => Fail(s, 0)
  }

  predicate Opens(e: Expr) { e.Call? || e.New? || e.Invoke? || e.Block? || e.TryCatch? || e.Match? }

  /** The expressions that open frames of their own. */
  function EvalOpening(p: Program, e: Expr, s: State, fuel: nat): (r: Out<Flow>)
    requires Sane(s) && fuel > 0 && Opens(e)
    ensures Keeps(s, r) && (CleanProgram(p) && Clean(e) ==> Even(s, r))
    decreases fuel, 2
  {
    match e
    case Call(f, args) => EvalCall(p, f, args, s, fuel)
    case New(cls, args) => EvalNew(p, cls, args, s, fuel)
    case Invoke(obj, m, args) => EvalInvoke(p, obj, m, args, s, fuel)
    case Block(body) => EvalBlock(p, body, s, fuel)
    case TryCatch(body, x, handler) => EvalTryCatch(p, body, x, handler, s, fuel)
    case Match(f, arms) => EvalMatch(p, f, arms, s, fuel)
  }

  /** What a body returned is the value of the expression. */
  function Produced(r: Out<Option<Val>>): Out<Flow> {
    match r
    case Done(v, t) => Done(Value(match v case None => Nothing case Some(x) => x), t)
    case Fail(t, k) => Fail(t, k)
    case Stuck => Stuck
  }

  function EvalMake(p: Program, ok: bool, e: Expr, s: State, fuel: nat): (o: Out<Flow>)
    requires Sane(s) && fuel > 0
    ensures Keeps(s, o) && (CleanProgram(p) && Clean(e) ==> Even(s, o)) && (Flat(e) ==> Shallow(o))
    decreases fuel, 1
  {
    match EvalExpr(p, e, s, fuel - 1)
    case Done(Value(v), t) => Done(Value(Res(ok, v)), t)
    case o => o
  }

  function EvalBlock(p: Program, body: seq<Stmt>, s: State, fuel: nat): (o: Out<Flow>)
    requires Sane(s) && fuel > 0
    ensures Keeps(s, o) && (CleanProgram(p) && CleanBody(body) ==> Even(s, o))
    decreases fuel, 1
  {
    Produced(Scope(p, [], [], body, s, fuel - 1))
  }

  /** The right operand comes first. */
  function EvalBinary(p: Program, op: Op, l: Expr, r: Expr, s: State, fuel: nat): (o: Out<Flow>)
    requires Sane(s) && fuel > 0
    ensures Keeps(s, o) && (CleanProgram(p) && Clean(l) && Clean(r) ==> Even(s, o)) && (Flat(l) && Flat(r) ==> Shallow(o))
    decreases fuel, 1
  {
    match EvalExpr(p, r, s, fuel - 1)
    case Done(Value(b), t) =>
      var q := EvalExpr(p, l, t, fuel - 1);
      Chain(s, t, q);
      (match q
      case Done(Value(a), u) =>
        var v := Binop(op, a, b);
        if v.Some? then Done(Value(v.value), u) else Fail(u, 0)
      case o => o)
    case o => o
  }

  function EvalStore(p: Program, x: Name, e: Expr, s: State, fuel: nat): (o: Out<Flow>)
    requires Sane(s) && fuel > 0
    ensures Keeps(s, o) && (CleanProgram(p) && Clean(e) ==> Even(s, o)) && (Flat(e) ==> Shallow(o))
    decreases fuel, 1
  {
    match EvalExpr(p, e, s, fuel - 1)
    case Done(Value(v), t) => SetVarLeads(t, x, v); LeadsTwice(s, t, SetVar(t, x, v)); Done(Value(v), SetVar(t, x, v))
    case o => o
  }

  /** Arguments from left to right; a return inside one is taken for its value. */
  function EvalArgs(p: Program, args: seq<Expr>, s: State, fuel: nat): (o: Out<seq<Val>>)
    requires Sane(s)
    ensures Keeps(s, o) && (CleanProgram(p) && CleanArgs(args) ==> Even(s, o))
    decreases fuel, 4, |args|
  {
    if args == [] then Stays(s); Done([], s)
    else
      match EvalExpr(p, args[0], s, fuel)
      case Done(f, t) =>
        (match EvalArgs(p, args[1..], t, fuel)
        case Done(vs, u) => LeadsTwice(s, t, u); Done([f.v] + vs, u)
        case Fail(u, k) => LeadsBreaks(s, t, u, k); Fail(u, k)
        case Stuck => Stuck)
      case Fail(t, k) => Fail(t, k)
      case Stuck => Stuck
  }

  function EvalCall(p: Program, f: Name, args: seq<Expr>, s: State, fuel: nat): (o: Out<Flow>)
    requires Sane(s) && fuel > 0
    ensures Keeps(s, o) && (CleanProgram(p) && CleanArgs(args) ==> Even(s, o))
    decreases fuel, 1
  {
    match EvalArgs(p, args, s, fuel - 1)
    case Done(vs, t) =>
      if f !in p.functions then Fail(t, 0)
      else
        var fn := p.functions[f];
        var r := Scope(p, fn.params, vs, fn.body, t, fuel - 1);
        Chain(s, t, r);
        Produced(r)
    case Fail(t, k) => Fail(t, k)
    case Stuck => Stuck
  }

  function EvalCond(p: Program, c: Expr, yes: Expr, other: Option<Expr>, s: State, fuel: nat): (o: Out<Flow>)
    requires Sane(s) && fuel > 0
    ensures Keeps(s, o) && (CleanProgram(p) && Clean(c) && Clean(yes) && (other.Some? ==> Clean(other.value)) ==> Even(s, o))
    ensures Flat(c) && Flat(yes) && (other.Some? ==> Flat(other.value)) ==> Shallow(o)
    decreases fuel, 1
  {
    match EvalExpr(p, c, s, fuel - 1)
    case Done(Value(v), t) =>
      if !Truthy(v) && other == None then Done(Value(Nothing), t)
      else
        var r := EvalExpr(p, if Truthy(v) then yes else other.value, t, fuel - 1);
        Chain(s, t, r);
        r
    case o => o
  }

  /** A failed result returns from the function. */
  function EvalTry(p: Program, e: Expr, s: State, fuel: nat): (o: Out<Flow>)
    requires Sane(s) && fuel > 0
    ensures Keeps(s, o) && (CleanProgram(p) && Clean(e) ==> Even(s, o)) && (Flat(e) ==> Shallow(o))
    decreases fuel, 1
  {
    match EvalExpr(p, e, s, fuel - 1)
    case Done(Value(v), t) =>
      if !v.Res? then Fail(t, 0) else if v.ok then Done(Value(v.inner), t) else Done(Returns(v), t)
    case o => o
  }

  /** A failed result that the body returns goes to the handler; anything else returns. */
  function EvalTryCatch(p: Program, body: seq<Stmt>, x: Name, handler: seq<Stmt>, s: State, fuel: nat): (o: Out<Flow>)
    requires Sane(s) && fuel > 0
    ensures Keeps(s, o) && (CleanProgram(p) && CleanBody(body) && CleanBody(handler) ==> Even(s, o))
    decreases fuel, 1
  {
    match Scope(p, [], [], body, s, fuel - 1)
    case Done(Some(v), t) =>
      if v.Res? && !v.ok then
        var r := Scope(p, [x], [v], handler, t, fuel - 1);
        Chain(s, t, r);
        Produced(r)
      else Done(Returns(v), t)
    case Done(None, t) => Done(Value(Nothing), t)
    case Fail(t, k) => Fail(t, k)
    case Stuck => Stuck
  }

  function EvalMatch(p: Program, e: Expr, arms: seq<Arm>, s: State, fuel: nat): (o: Out<Flow>)
    requires Sane(s) && fuel > 0
    ensures Keeps(s, o)
    ensures CleanProgram(p) && Clean(e) && CleanArms(arms) ==> Even(s, o)
    decreases fuel, 1
  {
    match EvalExpr(p, e, s, fuel - 1)
    case Done(Value(v), t) =>
      var r := EvalArms(p, arms, v, t, fuel - 1);
      Chain(s, t, r);
      r
    case o => o
  }

  /** The first arm whose pattern matches and whose guard holds. */
  function EvalArms(p: Program, arms: seq<Arm>, v: Val, s: State, fuel: nat): (o: Out<Flow>)
    requires Sane(s)
    ensures Keeps(s, o)
    ensures CleanProgram(p) && CleanArms(arms) ==> Even(s, o)
    decreases fuel, 6, |arms|
  {
    assert arms != [] && CleanArms(arms) ==> CleanArm(arms[0]) && CleanArms(arms[1..]);
    if arms == [] then Stays(s); Fail(s, 0)
    else if !Matches(arms[0].pattern, v) then EvalArms(p, arms[1..], v, s, fuel)
    else
      match arms[0].guard
      case None => ArmBody(p, arms[0], v, s, fuel)
      case Some(g) =>
        match Guard(p, arms[0].pattern, g, v, s, fuel)
        case Done(Value(b), t) =>
          var r := if !b.Bool? then Fail(t, 0) else if b.b then ArmBody(p, arms[0], v, t, fuel) else EvalArms(p, arms[1..], v, t, fuel);
          if b.Bool? then Chain(s, t, r); r else r
        case o => o
  }

  /** A guard runs in a frame of its own, which a return inside it leaves behind. */
  function Guard(p: Program, pattern: Pattern, g: Expr, v: Val, s: State, fuel: nat): (o: Out<Flow>)
    requires Sane(s)
    ensures Keeps(s, o)
    ensures o.Done? && o.value.Returns? ==> |o.s.frames| > |s.frames|
    decreases fuel, 5
  {
    var u := BindArm(Push(s), pattern, v);
    BindArmLeads(Push(s), pattern, v);
    var r := EvalExpr(p, g, u, fuel);
    Chain(Push(s), u, r);
    match r
    case Done(Value(b), t) => PopLeads(s, t); Done(Value(b), Pop(t))
    case Done(Returns(w), t) => LeftBehind(s, t, ReturningGuard); Done(Returns(w), t.(left := t.left + [ReturningGuard]))
    case Fail(t, k) => PushBreaks(s, t, k); Fail(t, k + 1)
    case Stuck => Stuck
  }

  lemma BindArmLeads(s: State, pattern: Pattern, v: Val)
    requires Sane(s)
    ensures Leads(s, BindArm(s, pattern, v))
  {
    if pattern.Bind? { SetVarLeads(s, pattern.x, v); } else { Stays(s); }
  }

  /** Recording the frames that an exit leaves open makes it a normal one. */
  lemma LeftBehind(s: State, t: State, leak: Leak)
    requires Sane(s) && if leak.FailedReceiver? then Breaks(s, t, leak.open) else Leads(Push(s), t)
    ensures Leads(s, t.(left := t.left + [leak])) && |t.frames| > |s.frames|
  {
    if leak.ReturningGuard? { PushBreaks(s, t, 0); }
    var open := Total([leak]);
    GrowsMeans(s, t, open);
    GrowsMeans(s, t.(left := t.left + [leak]), 0);
    TotalRest(t.left, [leak]);
    assert t.left == s.left + t.left[|s.left|..];
    TotalRest(s.left, t.left[|s.left|..]);
  }

  /** The body's frame is removed even when it fails. */
  function ArmBody(p: Program, arm: Arm, v: Val, s: State, fuel: nat): (o: Out<Flow>)
    requires Sane(s)
    ensures Keeps(s, o) && (CleanProgram(p) && Clean(arm.body) ==> Even(s, o))
    decreases fuel, 5
  {
    var u := BindArm(Push(s), arm.pattern, v);
    BindArmLeads(Push(s), arm.pattern, v);
    var r := EvalExpr(p, arm.body, u, fuel);
    Chain(Push(s), u, r);
    match r
    case Done(f, t) => PopLeads(s, t); Done(f, Pop(t))
    case Fail(t, k) => PushBreaks(s, t, k); Fail(Pop(t), k)
    case Stuck => Stuck
  }

  // ----- objects -----

  /** How an init body ends: with the instance that `self` holds, or with a failed result. */
  datatype InitFlow = Go(v: Val) | Halt(v: Val)

  function InitBody(p: Program, body: seq<Stmt>, self: Val, s: State, fuel: nat): (o: Out<InitFlow>)
    requires Sane(s)
    ensures Keeps(s, o) && (CleanProgram(p) && CleanBody(body) ==> Even(s, o))
    decreases fuel, 5
  {
    var u := Insert(Push(s), "self", self);
    InsertLeads(Push(s), "self", self);
    var r := ExecBody(p, body, u, fuel);
    Chain(Push(s), u, r);
    match r
    case Done(None, t) =>
      var top := t.frames[|t.frames| - 1];
      PopLeads(s, t);
      Done(Go(if "self" in top then top["self"] else self), Pop(t))
    case Done(Some(v), t) =>
      PopLeads(s, t);
      if v.Res? && !v.ok then Done(Halt(v), Pop(t)) else Fail(Pop(t), 0)
    case Fail(t, k) => PushBreaks(s, t, k); Fail(t, k + 1)
    case Stuck => Stuck
  }

  /** The parent's blocks, the parent's own body again, and the class's own body. */
  function RunInit(p: Program, cls: Class, self: Val, s: State, fuel: nat): (o: Out<Val>)
    requires Sane(s)
    ensures Keeps(s, o) && (CleanProgram(p) && CleanBody(cls.init) ==> Even(s, o))
    decreases fuel, 6
  {
    if fuel == 0 then Stuck
    else if cls.parent == None || cls.parent.value !in p.classes then OwnInit(p, cls, self, s, fuel)
    else
      var parent := p.classes[cls.parent.value];
      match RunInit(p, parent, self, s, fuel - 1)
      case Done(v, t) =>
        (match InitBody(p, parent.init, v, t, fuel - 1)
        case Done(Go(w), u) =>
          LeadsTwice(s, t, u);
          var r := OwnInit(p, cls, w, u, fuel);
          Chain(s, u, r);
          r
        case Done(Halt(w), u) => LeadsTwice(s, t, u); Done(w, u)
        case Fail(u, k) => LeadsBreaks(s, t, u, k); Fail(u, k)
        case Stuck => Stuck)
      case o => o
  }

  function OwnInit(p: Program, cls: Class, self: Val, s: State, fuel: nat): (o: Out<Val>)
    requires Sane(s) && fuel > 0
    ensures Keeps(s, o) && (CleanProgram(p) && CleanBody(cls.init) ==> Even(s, o))
    decreases fuel, 5
  {
    match InitBody(p, cls.init, self, s, fuel - 1)
    case Done(f, t) => Done(f.v, t)
    case Fail(t, k) => Fail(t, k)
    case Stuck => Stuck
  }

  /** The first field of that name. */
  function Place(fields: seq<Name>, x: Name): (r: Option<nat>)
    ensures r.Some? ==> r.value < |fields|
  {
    if fields == [] then None
    else if fields[0] == x then Some(0)
    else match Place(fields[1..], x) case None => None case Some(k) => Some(k + 1)
  }

  /** The argument of each parameter goes to the field of its name, if there is one. */
  function Placed(fields: seq<Name>, params: seq<Name>, vs: seq<Val>, i: nat, done: seq<Val>): (r: seq<Val>)
    requires i <= |params| && |done| == |fields|
    ensures |r| == |fields|
    decreases |params| - i
  {
    if i == |params| then done
    else
      var at := Place(fields, params[i]);
      Placed(fields, params, vs, i + 1, if at.Some? then done[at.value := if i < |vs| then vs[i] else Nothing] else done)
  }

  function Blank(n: nat): (r: seq<Val>)
    ensures |r| == n && forall k :: 0 <= k < n ==> r[k] == Nothing
  {
    seq(n, i => Nothing)
  }

  function EvalNew(p: Program, name: Name, args: seq<Expr>, s: State, fuel: nat): (o: Out<Flow>)
    requires Sane(s) && fuel > 0
    ensures Keeps(s, o) && (CleanProgram(p) && CleanArgs(args) ==> Even(s, o))
    decreases fuel, 1
  {
    match EvalArgs(p, args, s, fuel - 1)
    case Done(vs, t) =>
      if name !in p.classes then Fail(t, 0)
      else
        var cls := p.classes[name];
        var r := RunInit(p, cls, Obj(name, Placed(cls.fields, cls.params, vs, 0, Blank(|cls.fields|))), t, fuel - 1);
        Chain(s, t, r);
        (match r case Done(v, u) => Done(Value(v), u) case Fail(u, k) => Fail(u, k) case Stuck => Stuck)
    case Fail(t, k) => Fail(t, k)
    case Stuck => Stuck
  }

  /** The receiver is looked at before the arguments are, and an error in it is forgotten: the
      frames that were open stay. */
  function Peek(p: Program, obj: Expr, s: State, fuel: nat): (o: Out<()>)
    requires Sane(s)
    ensures Keeps(s, o) && !o.Fail? && (CleanProgram(p) && Flat(obj) && Clean(obj) ==> Even(s, o))
    decreases fuel, 4
  {
    match EvalExpr(p, obj, s, fuel)
    case Done(_, t) => Done((), t)
    case Fail(t, k) =>
      if k == 0 then Done((), t) else LeftBehind(s, t, FailedReceiver(k)); Done((), t.(left := t.left + [FailedReceiver(k)]))
    case Stuck => Stuck
  }

  function EvalInvoke(p: Program, obj: Expr, m: Name, args: seq<Expr>, s: State, fuel: nat): (o: Out<Flow>)
    requires Sane(s) && fuel > 0
    ensures Keeps(s, o) && (CleanProgram(p) && Flat(obj) && Clean(obj) && CleanArgs(args) ==> Even(s, o))
    decreases fuel, 1
  {
    match Peek(p, obj, s, fuel - 1)
    case Done(_, t) =>
      (match EvalArgs(p, args, t, fuel - 1)
      case Done(vs, u) =>
        LeadsTwice(s, t, u);
        var r := EvalReceiver(p, obj, m, vs, u, fuel);
        Chain(s, u, r);
        r
      case Fail(u, k) => LeadsBreaks(s, t, u, k); Fail(u, k)
      case Stuck => Stuck)
    case Stuck => Stuck
  }

  function EvalReceiver(p: Program, obj: Expr, m: Name, vs: seq<Val>, s: State, fuel: nat): (o: Out<Flow>)
    requires Sane(s) && fuel > 0
    ensures Keeps(s, o) && (CleanProgram(p) && Flat(obj) && Clean(obj) ==> Even(s, o))
    decreases fuel, 0
  {
    match EvalExpr(p, obj, s, fuel - 1)
    case Done(Value(self), t) =>
      if !self.Obj? || FindMethod(p, self.cls, m).None? then Fail(t, 0)
      else
        var r := RunMethod(p, FindMethod(p, self.cls, m).value, obj, self, vs, t, fuel - 1);
        Chain(s, t, r);
        r
    case o => o
  }

  /** The method runs on a copy of the receiver, which is written back to the variable. */
  function RunMethod(p: Program, fn: Fn, obj: Expr, self: Val, vs: seq<Val>, s: State, fuel: nat): (o: Out<Flow>)
    requires Sane(s)
    ensures Keeps(s, o) && (CleanProgram(p) && CleanBody(fn.body) ==> Even(s, o))
    decreases fuel, 5
  {
    var params := if fn.params != [] && fn.params[0] == "self" then fn.params[1..] else fn.params;
    var u := InsertAll(Push(s), ["self", "super"] + params, [self, self] + vs, 0);
    InsertAllLeads(Push(s), ["self", "super"] + params, [self, self] + vs, 0);
    var r := ExecBody(p, fn.body, u, fuel);
    Chain(Push(s), u, r);
    match r
    case Done(v, t) =>
      var top, q := t.frames[|t.frames| - 1], Pop(t);
      PopLeads(s, t);
      var w := if obj.Var? && "self" in top then SetVar(q, obj.x, top["self"]) else q;
      if obj.Var? && "self" in top then SetVarLeads(q, obj.x, top["self"]); LeadsTwice(s, q, w); Produced(Done(v, w))
      else Produced(Done(v, w))
    case Fail(t, k) => PushBreaks(s, t, k); Fail(t, k + 1)
    case Stuck => Stuck
  }

  // ----- what follows -----

  /** Without guards and with receivers that open no frame, a run that returns normally leaves the
      stack as high as it was, and no frame below the top gains or loses a name. */
  lemma Balanced(p: Program, e: Expr, s: State, fuel: nat)
    requires Sane(s) && CleanProgram(p) && Clean(e) && EvalExpr(p, e, s, fuel).Done?
    ensures var t := EvalExpr(p, e, s, fuel).s;
      && |t.frames| == |s.frames| == |t.moved| && (forall i :: 0 <= i < |s.frames| - 1 ==> t.frames[i].Keys == s.frames[i].Keys)
      && s.frames[|s.frames| - 1].Keys <= t.frames[|s.frames| - 1].Keys
  {
    GrowsMeans(s, EvalExpr(p, e, s, fuel).s, 0);
  }

  /** In any program, the stack ends higher by one frame for each guard that returned and by the open
      frames that each forgotten error of a receiver had passed: it comes back to its height exactly
      when no branch of either kind was taken. */
  lemma HeightExact(p: Program, st: Stmt, s: State, fuel: nat)
    requires Sane(s) && Exec(p, st, s, fuel).Done?
    ensures var t := Exec(p, st, s, fuel).s;
      && s.left <= t.left && |t.frames| == |t.moved| == |s.frames| + Total(t.left[|s.left|..])
      && (|t.frames| == |s.frames| <==> t.left == s.left)
  {
    HigherBy(s, Exec(p, st, s, fuel).s, 0);
  }

  lemma HigherBy(s: State, t: State, open: nat)
    requires Grows(s, t, open)
    ensures s.left <= t.left
    ensures var more := t.left[|s.left|..]; |t.frames| == |s.frames| + open + Total(more) && Total(more) >= |more|
  {
    GrowsMeans(s, t, open);
    assert t.left == s.left + t.left[|s.left|..];
    TotalRest(s.left, t.left[|s.left|..]);
  }

  lemma GuardFrames(p: Program, pattern: Pattern, g: Expr, v: Val, s: State, fuel: nat)
    requires Sane(s) && Guard(p, pattern, g, v, s, fuel).Done?
    ensures var r := EvalExpr(p, g, BindArm(Push(s), pattern, v), fuel);
      && r.Done? && Leads(Push(s), r.s)
      && |Guard(p, pattern, g, v, s, fuel).s.frames| == |r.s.frames| - if r.value.Returns? then 0 else 1
  {
    var u := BindArm(Push(s), pattern, v);
    BindArmLeads(Push(s), pattern, v);
    var r := EvalExpr(p, g, u, fuel);
    LeadsTwice(Push(s), u, r.s);
  }

  /** A guard leaves one frame if it returns and none if not, besides those that branches inside it
      leave; a clean guard takes no such branch. */
  lemma GuardExact(p: Program, pattern: Pattern, g: Expr, v: Val, s: State, fuel: nat)
    requires Sane(s) && Guard(p, pattern, g, v, s, fuel).Done?
    ensures var r := EvalExpr(p, g, BindArm(Push(s), pattern, v), fuel);
      && r.Done? && s.left <= r.s.left
      && |Guard(p, pattern, g, v, s, fuel).s.frames|
         == |s.frames| + Total(r.s.left[|s.left|..]) + (if r.value.Returns? then 1 else 0)
      && (CleanProgram(p) && Clean(g) ==> r.s.left == s.left)
  {
    var u := BindArm(Push(s), pattern, v);
    var r := EvalExpr(p, g, u, fuel);
    GuardFrames(p, pattern, g, v, s, fuel);
    HigherBy(Push(s), r.s, 0);
  }

  /** The first look at a receiver leaves the frames that its error passed, besides those that
      branches inside it leave: none of the first if the receiver opens no frame, none of the second
      if it is clean. */
  lemma ReceiverExact(p: Program, obj: Expr, s: State, fuel: nat)
    requires Sane(s) && Peek(p, obj, s, fuel).Done?
    ensures var r := EvalExpr(p, obj, s, fuel);
      && !r.Stuck? && s.left <= r.s.left
      && |Peek(p, obj, s, fuel).s.frames| == |s.frames| + Total(r.s.left[|s.left|..]) + (if r.Fail? then r.open else 0)
      && (Flat(obj) && r.Fail? ==> r.open == 0) && (CleanProgram(p) && Clean(obj) ==> r.s.left == s.left)
  {
    var r := EvalExpr(p, obj, s, fuel);
    HigherBy(s, r.s, if r.Fail? then r.open else 0);
  }

  /** A guard that returns leaves its frame behind. */
  lemma GuardLeaks(p: Program, s: State, fuel: nat)
    requires Sane(s) && fuel >= 5
    ensures var failed := Res(false, Nothing);
      var e := Match(Lit(Num(1)), [Arm(Ignore, Some(Try(Lit(failed))), Lit(Nothing))]);
      var r := EvalExpr(p, e, s, fuel);
      r.Done? && r.value == Returns(failed) && |r.s.frames| == |s.frames| + 1
  {
    var failed := Res(false, Nothing);
    var g := Try(Lit(failed));
    var arms := [Arm(Ignore, Some(g), Lit(Nothing))];
    var u := Push(s);
    assert EvalExpr(p, Lit(failed), u, fuel - 2) == Done(Value(failed), u);
    assert EvalExpr(p, g, u, fuel - 1) == Done(Returns(failed), u);
    assert Guard(p, Ignore, g, Num(1), s, fuel - 1).Done?;
    assert EvalArms(p, arms, Num(1), s, fuel - 1) == Guard(p, Ignore, g, Num(1), s, fuel - 1);
    assert EvalExpr(p, Lit(Num(1)), s, fuel - 1) == Done(Value(Num(1)), s);
    assert EvalExpr(p, Match(Lit(Num(1)), arms), s, fuel) == EvalMatch(p, Lit(Num(1)), arms, s, fuel);
  }

  /** A receiver that reads x before x is set. */
  function Receiver(x: Name, v: Val): Expr { Block([Eval(Var(x)), Return(Some(Lit(v)))]) }

  /** While x is unknown, looking at the receiver fails inside its frame. */
  lemma FirstLook(p: Program, x: Name, v: Val, s: State, fuel: nat)
    requires Sane(s) && GetVar(s, x) == None && fuel >= 4
    ensures Peek(p, Receiver(x, v), s, fuel) == Done((), Push(s).(left := s.left + [FailedReceiver(1)]))
  {
    var u := Push(s);
    assert u.frames[..|s.frames|] == s.frames;
    assert GetVar(u, x) == None;
    var body := [Eval(Var(x)), Return(Some(Lit(v)))];
    assert EvalExpr(p, Var(x), u, fuel - 2) == Fail(u, 0);
    assert Exec(p, Eval(Var(x)), u, fuel - 1) == Fail(u, 0);
    assert ExecBody(p, body, u, fuel - 1) == Fail(u, 0);
    assert InsertAll(Push(s), [], [], 0) == u;
    assert Scope(p, [], [], body, s, fuel - 1) == Fail(u, 1);
    assert EvalBlock(p, body, s, fuel) == Fail(u, 1);
    assert EvalExpr(p, Receiver(x, v), s, fuel) == EvalBlock(p, body, s, fuel);
  }

  /** Once x is known, the receiver has its value. */
  lemma SecondLook(p: Program, x: Name, v: Val, s: State, fuel: nat)
    requires Sane(s) && GetVar(s, x).Some? && fuel >= 4
    ensures EvalExpr(p, Receiver(x, v), s, fuel) == Done(Value(v), s)
  {
    var u := Push(s);
    assert u.frames[..|s.frames|] == s.frames && Pop(u) == s;
    assert GetVar(u, x).Some?;
    var body := [Eval(Var(x)), Return(Some(Lit(v)))];
    assert body[1..] == [body[1]];
    assert EvalExpr(p, Var(x), u, fuel - 2) == Done(Value(GetVar(u, x).value), u);
    assert Exec(p, body[0], u, fuel - 1) == Done(None, u);
    assert EvalExpr(p, Lit(v), u, fuel - 2) == Done(Value(v), u);
    assert Exec(p, body[1], u, fuel - 1) == Done(Some(v), u);
    assert ExecBody(p, body[1..], u, fuel - 1) == Done(Some(v), u);
    assert ExecBody(p, body, u, fuel - 1) == Done(Some(v), u);
    assert InsertAll(Push(s), [], [], 0) == u;
    assert Scope(p, [], [], body, s, fuel - 1) == Done(Some(v), s);
    assert EvalBlock(p, body, s, fuel) == Done(Value(v), s);
    assert EvalExpr(p, Receiver(x, v), s, fuel) == EvalBlock(p, body, s, fuel);
  }

  lemma StoreArgument(p: Program, x: Name, s: State, fuel: nat)
    requires Sane(s) && fuel >= 2
    ensures EvalArgs(p, [Store(x, Lit(Num(1)))], s, fuel) == Done([Num(1)], SetVar(s, x, Num(1)))
  {
    var args, u := [Store(x, Lit(Num(1)))], SetVar(s, x, Num(1));
    SetVarLeads(s, x, Num(1));
    assert EvalExpr(p, Lit(Num(1)), s, fuel - 1) == Done(Value(Num(1)), s);
    assert EvalExpr(p, args[0], s, fuel) == Done(Value(Num(1)), u);
    assert args[1..] == [] && EvalArgs(p, args[1..], u, fuel) == Done([], u);
    assert [Num(1)] + [] == [Num(1)];
  }

  lemma EmptyMethod(p: Program, obj: Expr, self: Val, vs: seq<Val>, s: State, fuel: nat)
    requires Sane(s) && !obj.Var?
    ensures RunMethod(p, Fn([], []), obj, self, vs, s, fuel).Done?
  {
    var u := InsertAll(Push(s), ["self", "super"] + [], [self, self] + vs, 0);
    assert ExecBody(p, [], u, fuel) == Done(None, u);
  }

  lemma StoredIsKnown(s: State, x: Name, v: Val)
    requires Sane(s) && GetVar(s, x) == None
    ensures GetVar(SetVar(s, x, v), x).Some?
  {
  }

  /** An error in the first look at a receiver is forgotten with its frame: when the arguments make
      the second look succeed, the call returns normally and the stack is higher. */
  lemma ReceiverLeaks(p: Program, x: Name, cls: Name, m: Name, s: State, fuel: nat)
    requires Sane(s) && GetVar(s, x) == None && fuel >= 6
    requires FindMethod(p, cls, m) == Some(Fn([], []))
    ensures var r := EvalExpr(p, Invoke(Receiver(x, Obj(cls, [])), m, [Store(x, Lit(Num(1)))]), s, fuel);
      r.Done? && |r.s.frames| > |s.frames|
  {
    var v := Obj(cls, []);
    var obj, args := Receiver(x, v), [Store(x, Lit(Num(1)))];
    var t := Push(s).(left := s.left + [FailedReceiver(1)]);
    var u := SetVar(t, x, Num(1));
    FirstLook(p, x, v, s, fuel - 1);
    StoreArgument(p, x, t, fuel - 1);
    assert t.frames[..|s.frames|] == s.frames;
    StoredHigher(t, u, x);
    SecondCall(p, x, cls, m, u, fuel);
    InvokeThrough(p, obj, m, args, s, t, [Num(1)], u, fuel);
  }

  lemma StoredHigher(t: State, u: State, x: Name)
    requires Sane(t) && GetVar(t, x) == None && u == SetVar(t, x, Num(1))
    ensures Sane(u) && |u.frames| >= |t.frames| && GetVar(u, x).Some?
  {
    SetVarLeads(t, x, Num(1));
    GrowsMeans(t, u, 0);
    StoredIsKnown(t, x, Num(1));
  }

  /** The first look, the arguments, and the rest of the call. */
  lemma InvokeThrough(p: Program, obj: Expr, m: Name, args: seq<Expr>, s: State, t: State, vs: seq<Val>, u: State, fuel: nat)
    requires Sane(s) && Sane(t) && Sane(u) && fuel > 0
    requires Peek(p, obj, s, fuel - 1) == Done((), t) && EvalArgs(p, args, t, fuel - 1) == Done(vs, u)
    ensures EvalExpr(p, Invoke(obj, m, args), s, fuel) == EvalReceiver(p, obj, m, vs, u, fuel)
  {
    assert EvalInvoke(p, obj, m, args, s, fuel) == EvalReceiver(p, obj, m, vs, u, fuel);
    assert EvalExpr(p, Invoke(obj, m, args), s, fuel) == EvalOpening(p, Invoke(obj, m, args), s, fuel);
  }

  lemma SecondCall(p: Program, x: Name, cls: Name, m: Name, s: State, fuel: nat)
    requires Sane(s) && GetVar(s, x).Some? && fuel >= 6 && FindMethod(p, cls, m) == Some(Fn([], []))
    ensures var r := EvalReceiver(p, Receiver(x, Obj(cls, [])), m, [Num(1)], s, fuel); r.Done? && |r.s.frames| >= |s.frames|
  {
    var v := Obj(cls, []);
    var obj := Receiver(x, v);
    SecondLook(p, x, v, s, fuel - 1);
    EmptyMethod(p, obj, v, [Num(1)], s, fuel - 1);
    var r := RunMethod(p, Fn([], []), obj, v, [Num(1)], s, fuel - 1);
    GrowsMeans(s, r.s, 0);
  }
}
