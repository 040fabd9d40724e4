/** The small compiler for request handlers: from string expressions to code that fills the
    response buffer. */
module HandlerCode {
  import opened Bytes
  import opened Wrappers

  // ----- expressions -----

  datatype Field = Method | Path | Body

  /** A constant condition, or a comparison of integer literals. */
  datatype Cond = Const(b: bool) | Compare(equal: bool, l: int, r: int)

  /** Literals of all kinds become their text; what the compiler does not know becomes nothing. */
  datatype Expr = Lit(text: seq<byte>) | Req(field: Field) | Nothing | Choose(c: Cond, t: Expr, e: Expr) | Plus(l: Expr, r: Expr)

  datatype Request = Request(verb: seq<byte>, path: seq<byte>, body: seq<byte>) {
    function Get(f: Field): seq<byte> { match f case Method => verb case Path => path case Body => body }
  }

  predicate Holds(c: Cond) {
    match c case Const(b) => b case Compare(equal, l, r) => equal == (l == r)
  }

  /** The text that an expression stands for. */
  function Meaning(e: Expr, req: Request): seq<byte> {
    match e
    case Lit(text) => text
    case Req(f) => req.Get(f)
    case Nothing => []
    case Choose(c, t, f) => if Holds(c) then Meaning(t, req) else Meaning(f, req)
    case Plus(l, r) => Meaning(l, req) + Meaning(r, req)
  }

  // ----- code -----

  /** `%l0, %l1, …`, an integer, the buffer and its length. */
  datatype Operand = Reg(n: nat) | Num(v: nat) | Flag(b: bool) | Buf | BufLen

  datatype Instr = TextAt(dst: nat, text: seq<byte>) | BufAt(dst: nat, offset: Operand) | FieldAt(dst: nat, field: nat)
    | LoadPtr(dst: nat, from: nat) | LoadLen(dst: nat, from: nat) | Icmp(dst: nat, equal: bool, l: int, r: int)
    | Add(dst: nat, a: Operand, b: Operand) | Sub(dst: nat, a: Operand, b: Operand) | Above(dst: nat, a: Operand, b: Operand)
    | Select(dst: nat, c: Operand, a: Operand, b: Operand) | Copy(to: Operand, source: Operand, n: Operand)

  // ----- the machine -----

  /** A pointer into the buffer, to the start of some text outside it, or to a field of the request. */
  datatype Val = InBuf(offset: nat) | Text(text: seq<byte>) | Slot(offset: nat) | Int(v: int) | Bool(b: bool)

  datatype State = State(regs: map<nat, Val>, buf: seq<byte>)

  function Eval(s: State, o: Operand): Val {
    match o
    case Reg(n) => if n in s.regs then s.regs[n] else Int(0)
    case Num(v) => Int(v)
    case Flag(b) => Bool(b)
    case Buf => InBuf(0)
    case BufLen => Int(|s.buf|)
  }

  /** n bytes from a pointer on. */
  function Read(s: State, p: Val, n: Val): Option<seq<byte>> {
    if !n.Int? || n.v < 0 then None
    else if p.InBuf? && p.offset + n.v <= |s.buf| then Some(s.buf[p.offset..p.offset + n.v])
    else if p.Text? && n.v <= |p.text| then Some(p.text[..n.v])
    else None
  }

  /** Copying between ranges that overlap is undefined, unless they are the same. */
  predicate Overlap(p: Val, q: Val, n: int) {
    p.InBuf? && q.InBuf? && p.offset != q.offset && p.offset < q.offset + n && q.offset < p.offset + n
  }

  /** The request in memory: a pointer and a length for each of three texts, eight bytes each. */
  const LAYOUT := [Method, Path, Body]

  function PointerAt(offset: nat): Option<Field> {
    if offset % 16 == 0 && offset / 16 < 3 then Some(LAYOUT[offset / 16]) else None
  }

  function LengthAt(offset: nat): Option<Field> {
    if offset % 16 == 8 && offset / 16 < 3 then Some(LAYOUT[offset / 16]) else None
  }

  /** Two stretches of the buffer overlap exactly if they start apart and share a byte. */
  lemma OverlapMeans(p: nat, q: nat, n: nat)
    ensures Overlap(InBuf(p), InBuf(q), n) <==> p != q && exists k: nat :: Within(k, p, n) && Within(k, q, n)
  {
    if Overlap(InBuf(p), InBuf(q), n) {
      var k := if p < q then q else p;
      assert Within(k, p, n) && Within(k, q, n);
    }
  }

  predicate Within(k: nat, from: nat, n: nat) { from <= k < from + n }

  function Set(s: State, dst: nat, v: Val): Option<State> { Some(s.(regs := s.regs[dst := v])) }

  /** One instruction; None stands for undefined behaviour. */
  function Step(s: State, i: Instr, req: Request): Option<State> {
    match i
    case TextAt(dst, text) => Set(s, dst, Text(text))
    case BufAt(dst, offset) => var o := Eval(s, offset); if o.Int? && o.v >= 0 then Set(s, dst, InBuf(o.v)) else None
    case FieldAt(dst, offset) => Set(s, dst, Slot(offset))
    case LoadPtr(dst, from) =>
      var p := Eval(s, Reg(from));
      if p.Slot? && PointerAt(p.offset).Some? then Set(s, dst, Text(req.Get(PointerAt(p.offset).value))) else None
    case LoadLen(dst, from) =>
      var p := Eval(s, Reg(from));
      if p.Slot? && LengthAt(p.offset).Some? then Set(s, dst, Int(|req.Get(LengthAt(p.offset).value)|)) else None
    case Icmp(dst, equal, l, r) => Set(s, dst, Bool(equal == (l == r)))
    case Add(dst, a, b) => var x, y := Eval(s, a), Eval(s, b); if x.Int? && y.Int? then Set(s, dst, Int(x.v + y.v)) else None
    case Sub(dst, a, b) => var x, y := Eval(s, a), Eval(s, b); if x.Int? && y.Int? then Set(s, dst, Int(x.v - y.v)) else None
    case Above(dst, a, b) => var x, y := Eval(s, a), Eval(s, b); if x.Int? && y.Int? then Set(s, dst, Bool(x.v > y.v)) else None
    case Select(dst, c, a, b) => var x := Eval(s, c); if x.Bool? then Set(s, dst, if x.b then Eval(s, a) else Eval(s, b)) else None
    case Copy(to, source, n) =>
      var p, q, k := Eval(s, to), Eval(s, source), Eval(s, n);
      var data := Read(s, q, k);
      if data.None? || !p.InBuf? || p.offset + k.v > |s.buf| || Overlap(p, q, k.v) then None
      else Some(s.(buf := s.buf[..p.offset] + data.value + s.buf[p.offset + k.v..]))
  }

  function Run(s: State, code: seq<Instr>, req: Request): Option<State>
    decreases |code|
  {
    if code == [] then Some(s)
    else
      match Step(s, code[0], req)
      case None => None
      case Some(t) => Run(t, code[1..], req)
  }

  // ----- the compiler -----

  datatype Gen = Gen(code: seq<Instr>, ptr: Operand, len: Operand, next: nat)

  function Offset(f: Field): nat { match f case Method => 0 case Path => 16 case Body => 32 }

  /** The code of an expression when the next free label is n. A text takes a label for its
      constant besides its register. */
  function Compile(e: Expr, n: nat): (g: Gen)
    ensures g.next >= n
  {
    match e
    case Lit(text) => Gen([TextAt(n + 1, text)], Reg(n + 1), Num(|text|), n + 2)
    case Req(f) =>
      Gen([FieldAt(n, Offset(f)), LoadPtr(n + 2, n), FieldAt(n + 1, Offset(f) + 8), LoadLen(n + 3, n + 1)], Reg(n + 2), Reg(n + 3), n + 4)
    case Nothing => Gen([BufAt(n, Num(0))], Reg(n), Num(0), n + 1)
    case Choose(c, t, f) =>
      var g := Compile(t, n + |Test(c, n)|);
      var h := Compile(f, g.next);
      Choice(Test(c, n), TestOf(c, n), g, h)
    case Plus(l, r) =>
      var g := Compile(l, n);
      var h := Compile(r, g.next);
      Gen(g.code + h.code + Join(g, h), Buf, Reg(h.next + 7), h.next + 8)
  }

  function Test(c: Cond, n: nat): seq<Instr> {
    match c case Const(_) => [] case Compare(equal, l, r) => [Icmp(n, equal, l, r)]
  }

  function TestOf(c: Cond, n: nat): Operand { match c case Const(b) => Flag(b) case Compare(_, _, _) => Reg(n) }

  function Choice(test: seq<Instr>, cond: Operand, g: Gen, h: Gen): Gen {
    Gen(test + g.code + h.code + Selects(cond, g, h), Reg(h.next), Reg(h.next + 1), h.next + 2)
  }

  function Selects(cond: Operand, g: Gen, h: Gen): seq<Instr> {
    [Select(h.next, cond, g.ptr, h.ptr), Select(h.next + 1, cond, g.len, h.len)]
  }

  /** Both parts are cut to what the buffer holds and copied behind each other. */
  function Join(g: Gen, h: Gen): seq<Instr> { JoinLeft(g, h) + JoinRoom(h) + JoinRight(h) }

  function JoinLeft(g: Gen, h: Gen): seq<Instr> {
    var n := h.next;
    [Add(n, g.len, h.len), Above(n + 1, g.len, BufLen), Select(n + 2, Reg(n + 1), BufLen, g.len), Copy(Buf, g.ptr, Reg(n + 2))]
  }

  function JoinRoom(h: Gen): seq<Instr> {
    var n := h.next;
    [BufAt(n + 3, Reg(n + 2)), Sub(n + 4, BufLen, Reg(n + 2)), Above(n + 5, h.len, Reg(n + 4)), Select(n + 6, Reg(n + 5), Reg(n + 4), h.len)]
  }

  function JoinRight(h: Gen): seq<Instr> {
    var n := h.next;
    [Copy(Reg(n + 3), h.ptr, Reg(n + 6)), Add(n + 7, Reg(n + 2), Reg(n + 6))]
  }

  // ----- running code in parts -----

  function Ask(s: State, code: seq<Instr>, u: bool): bool { true }

  /** The code runs from s to t. */
  ghost predicate Ran(s: State, code: seq<Instr>, req: Request, t: State) {
    forall u {:trigger Ask(s, code, u)} :: Ask(s, code, u) ==> Run(s, code, req) == Some(t)
  }

  lemma RanMeans(s: State, code: seq<Instr>, req: Request, t: State)
    ensures Ran(s, code, req, t) <==> Run(s, code, req) == Some(t)
  {
    assert Ask(s, code, true);
  }

  function Then(r: Option<State>, code: seq<Instr>, req: Request): Option<State> {
    match r case None => None case Some(t) => Run(t, code, req)
  }

  lemma {:induction false} RunParts(s: State, a: seq<Instr>, b: seq<Instr>, req: Request)
    ensures Run(s, a + b, req) == Then(Run(s, a, req), b, req)
    decreases |a|
  {
    if a == [] {
      assert a + b == b;
    } else {
      assert (a + b)[1..] == a[1..] + b;
      match Step(s, a[0], req)
      case None =>
      case Some(t) => RunParts(t, a[1..], b, req);
    }
  }

  lemma RanThen(s: State, a: seq<Instr>, t: State, b: seq<Instr>, u: State, req: Request)
    requires Ran(s, a, req, t) && Ran(t, b, req, u)
    ensures Ran(s, a + b, req, u)
  {
    RanMeans(s, a, req, t);
    RanMeans(t, b, req, u);
    RanMeans(s, a + b, req, u);
    RunParts(s, a, b, req);
  }

  lemma RanOne(s: State, i: Instr, t: State, req: Request)
    requires Step(s, i, req) == Some(t)
    ensures Ran(s, [i], req, t)
  {
    RanMeans(s, [i], req, t);
  }

  /** Labels below n keep their values. */
  ghost predicate Kept(s: State, t: State, n: nat) {
    forall k :: 0 <= k < n && k in s.regs ==> k in t.regs && t.regs[k] == s.regs[k]
  }

  /** The operand has a value, which lasts. */
  ghost predicate Lasts(s: State, o: Operand, n: nat) { o.Reg? ==> o.n < n && o.n in s.regs }

  lemma EvalKept(s: State, t: State, o: Operand, n: nat)
    requires Lasts(s, o, n) && Kept(s, t, n) && |s.buf| == |t.buf|
    ensures Eval(t, o) == Eval(s, o) && Lasts(t, o, n)
  {}

  // ----- expressions that write nothing -----

  predicate Leaf(e: Expr) {
    match e case Choose(_, t, f) => Leaf(t) && Leaf(f) case Plus(_, _) => false case _ => true
  }

  /** A pointer and a length that stand for a text outside the buffer, or for nothing. */
  ghost predicate Stands(s: State, p: Operand, len: Operand, n: nat, text: seq<byte>) {
    && Lasts(s, p, n) && Lasts(s, len, n) && Eval(s, len) == Int(|text|)
    && ((Eval(s, p).Text? && text <= Eval(s, p).text) || (Eval(s, p) == InBuf(0) && text == []))
  }

  lemma StandsKept(s: State, t: State, p: Operand, len: Operand, n: nat, m: nat, text: seq<byte>)
    requires Stands(s, p, len, n, text) && Kept(s, t, n) && n <= m && |s.buf| == |t.buf|
    ensures Stands(t, p, len, m, text)
  {
    EvalKept(s, t, p, n);
    EvalKept(s, t, len, n);
  }

  /** The code runs without touching the buffer or the labels below n, and leaves the text. */
  ghost predicate YieldsText(s: State, g: Gen, n: nat, text: seq<byte>, req: Request, t: State) {
    Ran(s, g.code, req, t) && t.buf == s.buf && Kept(s, t, n) && Stands(t, g.ptr, g.len, g.next, text)
  }

  function Look(s: State, t: State, u: bool): bool { true }

  ghost predicate Yields(s: State, g: Gen, n: nat, text: seq<byte>, req: Request, t: State) {
    forall u {:trigger Look(s, t, u)} :: Look(s, t, u) ==> YieldsText(s, g, n, text, req, t)
  }

  lemma YieldsMeans(s: State, g: Gen, n: nat, text: seq<byte>, req: Request, t: State)
    ensures Yields(s, g, n, text, req, t) <==> YieldsText(s, g, n, text, req, t)
  {
    assert Look(s, t, true);
  }

  lemma {:induction false} LeafCorrect(e: Expr, n: nat, s: State, req: Request) returns (t: State)
    requires Leaf(e)
    ensures Yields(s, Compile(e, n), n, Meaning(e, req), req, t)
    decreases e, 1
  {
    match e
    case Choose(_, _, _) => t := LeafChoose(e, n, s, req);
    case Req(f) => t := ReqCorrect(f, n, s, req);
    case Lit(text) => t := LitCorrect(text, n, s, req);
    case Nothing => t := NothingCorrect(n, s, req);
    case Plus(_, _) =>
  }

  lemma {:induction false} LeafChoose(e: Expr, n: nat, s: State, req: Request) returns (t: State)
    requires e.Choose? && Leaf(e)
    ensures Yields(s, Compile(e, n), n, Meaning(e, req), req, t)
    decreases e, 0
  {
    var m := n + |Test(e.c, n)|;
    var g := Compile(e.t, m);
    var h := Compile(e.e, g.next);
    CompileChoose(e, n);
    var whole, text := Compile(e, n), Meaning(e, req);
    var l, r := Meaning(e.t, req), Meaning(e.e, req);
    assert text == if Holds(e.c) then l else r;
    var s0 := TestRuns(e.c, n, s, req);
    var s1 := LeafCorrect(e.t, m, s0, req);
    var s2 := LeafCorrect(e.e, g.next, s1, req);
    t := ChooseParts(Test(e.c, n), TestOf(e.c, n), Holds(e.c), n, s, s0, s1, s2, g, h, whole, l, r, req);
  }

  lemma CompileChoose(e: Expr, n: nat)
    requires e.Choose?
    ensures var g := Compile(e.t, n + |Test(e.c, n)|); Compile(e, n) == Choice(Test(e.c, n), TestOf(e.c, n), g, Compile(e.e, g.next))
  {}

  lemma LitCorrect(text: seq<byte>, n: nat, s: State, req: Request) returns (t: State)
    ensures Yields(s, Compile(Lit(text), n), n, text, req, t)
  {
    t := s.(regs := s.regs[n + 1 := Text(text)]);
    RanOne(s, TextAt(n + 1, text), t, req);
    YieldsMeans(s, Compile(Lit(text), n), n, text, req, t);
  }

  lemma NothingCorrect(n: nat, s: State, req: Request) returns (t: State)
    ensures Yields(s, Compile(Nothing, n), n, [], req, t)
  {
    t := s.(regs := s.regs[n := InBuf(0)]);
    RanOne(s, BufAt(n, Num(0)), t, req);
    YieldsMeans(s, Compile(Nothing, n), n, [], req, t);
  }

  lemma ReqCorrect(f: Field, n: nat, s: State, req: Request) returns (t: State)
    ensures Yields(s, Compile(Req(f), n), n, req.Get(f), req, t)
  {
    t := FieldRuns(f, n, s, req);
    FieldYields(f, n, s, req, Compile(Req(f), n), t);
  }

  lemma FieldRuns(f: Field, n: nat, s: State, req: Request) returns (t: State)
    ensures Ran(s, [FieldAt(n, Offset(f)), LoadPtr(n + 2, n), FieldAt(n + 1, Offset(f) + 8), LoadLen(n + 3, n + 1)], req, t)
    ensures t == s.(regs := s.regs[n := Slot(Offset(f))][n + 2 := Text(req.Get(f))][n + 1 := Slot(Offset(f) + 8)][n + 3 := Int(|req.Get(f)|)])
  {
    var s1 := s.(regs := s.regs[n := Slot(Offset(f))]);
    var s2 := s1.(regs := s1.regs[n + 2 := Text(req.Get(f))]);
    var s3 := s2.(regs := s2.regs[n + 1 := Slot(Offset(f) + 8)]);
    t := s3.(regs := s3.regs[n + 3 := Int(|req.Get(f)|)]);
    var a, b, c, d := FieldAt(n, Offset(f)), LoadPtr(n + 2, n), FieldAt(n + 1, Offset(f) + 8), LoadLen(n + 3, n + 1);
    RanOne(s, a, s1, req);
    RanOne(s1, b, s2, req);
    RanOne(s2, c, s3, req);
    RanOne(s3, d, t, req);
    RanThen(s, [a], s1, [b], s2, req);
    RanThen(s, [a] + [b], s2, [c], s3, req);
    RanThen(s, [a] + [b] + [c], s3, [d], t, req);
    assert [a] + [b] + [c] + [d] == [a, b, c, d];
  }

  lemma FieldYields(f: Field, n: nat, s: State, req: Request, g: Gen, t: State)
    requires g == Compile(Req(f), n) && Ran(s, g.code, req, t)
    requires t == s.(regs := s.regs[n := Slot(Offset(f))][n + 2 := Text(req.Get(f))][n + 1 := Slot(Offset(f) + 8)][n + 3 := Int(|req.Get(f)|)])
    ensures Yields(s, g, n, req.Get(f), req, t)
  {
    YieldsMeans(s, g, n, req.Get(f), req, t);
  }

  /** A test runs without touching the buffer or the labels below n, and leaves its flag. */
  ghost predicate Decides(s: State, test: seq<Instr>, cond: Operand, b: bool, n: nat, req: Request, t: State) {
    && Ran(s, test, req, t) && t.buf == s.buf && Kept(s, t, n)
    && Eval(t, cond) == Bool(b) && Lasts(t, cond, n + |test|)
  }

  lemma TestRuns(c: Cond, n: nat, s: State, req: Request) returns (t: State)
    ensures Decides(s, Test(c, n), TestOf(c, n), Holds(c), n, req, t)
  {
    match c
    case Const(_) =>
      t := s;
      RanMeans(s, [], req, s);
    case Compare(equal, l, r) =>
      t := s.(regs := s.regs[n := Bool(equal == (l == r))]);
      RanOne(s, Icmp(n, equal, l, r), t, req);
  }

  /** Test, both branches, and the selection between their results. */
  lemma ChooseParts(test: seq<Instr>, cond: Operand, b: bool, n: nat, s: State, s0: State, s1: State, s2: State, g: Gen, h: Gen,
      whole: Gen, l: seq<byte>, r: seq<byte>, req: Request) returns (t: State)
    requires whole == Choice(test, cond, g, h) && Decides(s, test, cond, b, n, req, s0) && n + |test| <= g.next <= h.next
    requires Yields(s0, g, n + |test|, l, req, s1) && Yields(s1, h, g.next, r, req, s2)
    ensures Yields(s, whole, n, if b then l else r, req, t)
  {
    YieldsMeans(s0, g, n + |test|, l, req, s1);
    YieldsMeans(s1, h, g.next, r, req, s2);
    StandsKept(s1, s2, g.ptr, g.len, g.next, h.next, l);
    EvalKept(s0, s1, cond, n + |test|);
    EvalKept(s1, s2, cond, n + |test|);
    t := SelectBoth(s2, cond, b, g, h, l, r, req);
    RanThen(s, test, s0, g.code, s1, req);
    RanThen(s, test + g.code, s1, h.code, s2, req);
    RanThen(s, test + g.code + h.code, s2, Selects(cond, g, h), t, req);
    YieldsMeans(s, whole, n, if b then l else r, req, t);
  }

  lemma SelectBoth(s: State, cond: Operand, b: bool, g: Gen, h: Gen, l: seq<byte>, r: seq<byte>, req: Request) returns (t: State)
    requires Eval(s, cond) == Bool(b) && (cond.Reg? ==> cond.n < h.next)
    requires Stands(s, g.ptr, g.len, h.next, l) && Stands(s, h.ptr, h.len, h.next, r)
    ensures Ran(s, Selects(cond, g, h), req, t) && t.buf == s.buf && Kept(s, t, h.next)
    ensures Stands(t, Reg(h.next), Reg(h.next + 1), h.next + 2, if b then l else r)
  {
    t := SelectEither(s, cond, b, g, h, req);
  }

  /** The two selections, whatever the operands stand for. */
  lemma SelectEither(s: State, cond: Operand, b: bool, g: Gen, h: Gen, req: Request) returns (t: State)
    requires Eval(s, cond) == Bool(b) && (cond.Reg? ==> cond.n < h.next)
    requires Lasts(s, g.len, h.next) && Lasts(s, h.len, h.next)
    ensures Ran(s, Selects(cond, g, h), req, t) && t.buf == s.buf && Kept(s, t, h.next)
    ensures h.next in t.regs && t.regs[h.next] == Eval(s, if b then g.ptr else h.ptr)
    ensures h.next + 1 in t.regs && t.regs[h.next + 1] == Eval(s, if b then g.len else h.len)
  {
    var n := h.next;
    var i, j := Select(n, cond, g.ptr, h.ptr), Select(n + 1, cond, g.len, h.len);
    var u := s.(regs := s.regs[n := Eval(s, if b then g.ptr else h.ptr)]);
    t := u.(regs := u.regs[n + 1 := Eval(s, if b then g.len else h.len)]);
    RanOne(s, i, u, req);
    RanOne(u, j, t, req);
    RanThen(s, [i], u, [j], t, req);
    assert [i] + [j] == [i, j];
  }

  // ----- chains -----

  /** A chain nests to the left: only its first part may be a chain itself. */
  predicate Chain(e: Expr) {
    e.Plus? && Leaf(e.r) && (Leaf(e.l) || Chain(e.l))
  }

  function Min(a: nat, b: nat): nat { if a < b then a else b }

  /** As much of a text as fits. */
  function Cut(text: seq<byte>, room: nat): (r: seq<byte>)
    ensures r <= text && |r| == Min(|text|, room)
  {
    text[..Min(|text|, room)]
  }

  lemma CutPlus(l: seq<byte>, r: seq<byte>, room: nat)
    ensures Cut(l, room) + Cut(r, room - |Cut(l, room)|) == Cut(l + r, room)
    ensures Cut(Cut(l, room) + r, room) == Cut(l + r, room)
  {}

  /** A pointer and a length from which a text can be read, which lies outside the buffer or at its start. */
  ghost predicate Readable(s: State, p: Operand, len: Operand, n: nat, text: seq<byte>) {
    && Lasts(s, p, n) && Lasts(s, len, n) && Eval(s, len) == Int(|text|)
    && ((Eval(s, p).Text? && text <= Eval(s, p).text) || (Eval(s, p) == InBuf(0) && text <= s.buf))
  }

  /** The first half of a join: the left part goes to the front of the buffer. */
  lemma CopyLeft(g: Gen, h: Gen, s: State, l: seq<byte>, r: seq<byte>, req: Request) returns (t: State)
    requires Readable(s, g.ptr, g.len, h.next, l) && Lasts(s, h.len, h.next) && Eval(s, h.len) == Int(|r|)
    ensures var n, a := h.next, Cut(l, |s.buf|);
      && Ran(s, JoinLeft(g, h), req, t)
      && Kept(s, t, n) && n + 2 in t.regs && t.regs[n + 2] == Int(|a|) && t.buf == a + s.buf[|a|..]
  {
    var n, a := h.next, Cut(l, |s.buf|);
    var c := Copy(Buf, g.ptr, Reg(n + 2));
    var s3 := MeasureLeft(s, n, g.len, h.len, |l|, |r|, req);
    t := s3.(buf := a + s.buf[|a|..]);
    StillReadable(s, s3, g.ptr, g.len, n, l);
    CopyFront(s3, g.ptr, n, l, t, req);
    RanOne(s3, c, t, req);
    RanThen(s, LeftRoom(n, g.len, h.len), s3, [c], t, req);
    assert LeftRoom(n, g.len, h.len) + [c] == JoinLeft(g, h);
  }

  lemma StillReadable(s: State, t: State, p: Operand, len: Operand, n: nat, text: seq<byte>)
    requires Readable(s, p, len, n, text) && Kept(s, t, n) && t.buf == s.buf
    ensures (Eval(t, p).Text? && text <= Eval(t, p).text) || (Eval(t, p) == InBuf(0) && text <= t.buf)
  {
    EvalKept(s, t, p, n);
  }

  function LeftRoom(n: nat, left: Operand, right: Operand): seq<Instr> {
    [Add(n, left, right), Above(n + 1, left, BufLen), Select(n + 2, Reg(n + 1), BufLen, left)]
  }

  /** The sum of the lengths, and how much of the left part fits. */
  lemma MeasureLeft(s: State, n: nat, left: Operand, right: Operand, x: nat, y: nat, req: Request) returns (t: State)
    requires Lasts(s, left, n) && Lasts(s, right, n) && Eval(s, left) == Int(x) && Eval(s, right) == Int(y)
    ensures Ran(s, LeftRoom(n, left, right), req, t) && Kept(s, t, n) && t.buf == s.buf
    ensures t == s.(regs := t.regs) && n + 2 in t.regs && t.regs[n + 2] == Int(Min(x, |s.buf|))
  {
    var i, j, k := Add(n, left, right), Above(n + 1, left, BufLen), Select(n + 2, Reg(n + 1), BufLen, left);
    var s1 := s.(regs := s.regs[n := Int(x + y)]);
    var s2 := s1.(regs := s1.regs[n + 1 := Bool(x > |s.buf|)]);
    t := s2.(regs := s2.regs[n + 2 := Int(Min(x, |s.buf|))]);
    RanOne(s, i, s1, req);
    RanOne(s1, j, s2, req);
    RanOne(s2, k, t, req);
    RanThen(s, [i], s1, [j], s2, req);
    RanThen(s, [i] + [j], s2, [k], t, req);
    assert [i] + [j] + [k] == [i, j, k];
  }

  lemma CopyFront(s: State, p: Operand, n: nat, l: seq<byte>, t: State, req: Request)
    requires (Eval(s, p).Text? && l <= Eval(s, p).text) || (Eval(s, p) == InBuf(0) && l <= s.buf)
    requires var a := Cut(l, |s.buf|);
      n + 2 in s.regs && s.regs[n + 2] == Int(|a|) && t == s.(buf := a + s.buf[|a|..])
    ensures Step(s, Copy(Buf, p, Reg(n + 2)), req) == Some(t)
  {
    var a := Cut(l, |s.buf|);
    assert s.buf[..0] + a + s.buf[|a|..] == a + s.buf[|a|..];
    if Eval(s, p).Text? { assert Eval(s, p).text[..|a|] == a; } else { assert s.buf[0..0 + |a|] == a; }
  }

  /** How much of the right part fits behind it. */
  lemma MeasureRight(h: Gen, s: State, a: nat, r: seq<byte>, req: Request) returns (t: State)
    requires h.next + 2 in s.regs && s.regs[h.next + 2] == Int(a) && a <= |s.buf|
    requires Lasts(s, h.len, h.next) && Eval(s, h.len) == Int(|r|)
    ensures var n, b := h.next, Cut(r, |s.buf| - a);
      && Ran(s, JoinRoom(h), req, t) && Kept(s, t, n + 3) && t.buf == s.buf
      && n + 3 in t.regs && t.regs[n + 3] == InBuf(a) && n + 6 in t.regs && t.regs[n + 6] == Int(|b|)
  {
    var n := h.next;
    var i, j, k := BufAt(n + 3, Reg(n + 2)), Sub(n + 4, BufLen, Reg(n + 2)), Above(n + 5, h.len, Reg(n + 4));
    var l := Select(n + 6, Reg(n + 5), Reg(n + 4), h.len);
    var s1 := BehindLeft(s, n, a, req);
    t := Smaller(s1, h.len, n, |r|, |s.buf| - a, req);
    RanThen(s, [i, j], s1, [k, l], t, req);
    assert [i, j] + [k, l] == JoinRoom(h);
  }

  /** Where the right part goes, and the room there. */
  lemma BehindLeft(s: State, n: nat, a: nat, req: Request) returns (t: State)
    requires n + 2 in s.regs && s.regs[n + 2] == Int(a) && a <= |s.buf|
    ensures Ran(s, [BufAt(n + 3, Reg(n + 2)), Sub(n + 4, BufLen, Reg(n + 2))], req, t)
    ensures t == s.(regs := s.regs[n + 3 := InBuf(a)][n + 4 := Int(|s.buf| - a)])
  {
    var i, j := BufAt(n + 3, Reg(n + 2)), Sub(n + 4, BufLen, Reg(n + 2));
    var s1 := s.(regs := s.regs[n + 3 := InBuf(a)]);
    t := s1.(regs := s1.regs[n + 4 := Int(|s.buf| - a)]);
    RanOne(s, i, s1, req);
    RanOne(s1, j, t, req);
    RanThen(s, [i], s1, [j], t, req);
    assert [i] + [j] == [i, j];
  }

  lemma Smaller(s: State, len: Operand, n: nat, r: nat, room: nat, req: Request) returns (t: State)
    requires Lasts(s, len, n) && Eval(s, len) == Int(r) && n + 4 in s.regs && s.regs[n + 4] == Int(room)
    ensures Ran(s, [Above(n + 5, len, Reg(n + 4)), Select(n + 6, Reg(n + 5), Reg(n + 4), len)], req, t)
    ensures t == s.(regs := s.regs[n + 5 := Bool(r > room)][n + 6 := Int(Min(r, room))])
  {
    var k, l := Above(n + 5, len, Reg(n + 4)), Select(n + 6, Reg(n + 5), Reg(n + 4), len);
    var s1 := s.(regs := s.regs[n + 5 := Bool(r > room)]);
    t := s1.(regs := s1.regs[n + 6 := Int(Min(r, room))]);
    RanOne(s, k, s1, req);
    RanOne(s1, l, t, req);
    RanThen(s, [k], s1, [l], t, req);
    assert [k] + [l] == [k, l];
  }

  /** The right part goes behind the left one. */
  lemma CopyRight(h: Gen, s: State, a: nat, r: seq<byte>, req: Request) returns (t: State)
    requires a <= |s.buf| && Stands(s, h.ptr, h.len, h.next, r)
    requires var n, b := h.next, Cut(r, |s.buf| - a);
      && n + 2 in s.regs && s.regs[n + 2] == Int(a) && n + 3 in s.regs && s.regs[n + 3] == InBuf(a)
      && n + 6 in s.regs && s.regs[n + 6] == Int(|b|)
    ensures var n, b := h.next, Cut(r, |s.buf| - a);
      && Ran(s, JoinRight(h), req, t) && Kept(s, t, n) && n + 7 in t.regs && t.regs[n + 7] == Int(a + |b|)
      && t.buf == s.buf[..a] + b + s.buf[a + |b|..]
  {
    var n, b := h.next, Cut(r, |s.buf| - a);
    var c, d := Copy(Reg(n + 3), h.ptr, Reg(n + 6)), Add(n + 7, Reg(n + 2), Reg(n + 6));
    var s1 := s.(buf := s.buf[..a] + b + s.buf[a + |b|..]);
    t := s1.(regs := s1.regs[n + 7 := Int(a + |b|)]);
    CopyBehind(s, h.ptr, n, a, r, s1, req);
    RanOne(s, c, s1, req);
    RanOne(s1, d, t, req);
    RanThen(s, [c], s1, [d], t, req);
    assert [c] + [d] == JoinRight(h);
  }

  lemma CopyBehind(s: State, p: Operand, n: nat, a: nat, r: seq<byte>, t: State, req: Request)
    requires (Eval(s, p).Text? && r <= Eval(s, p).text) || (Eval(s, p) == InBuf(0) && r == [])
    requires a <= |s.buf| && n + 3 in s.regs && s.regs[n + 3] == InBuf(a)
    requires var b := Cut(r, |s.buf| - a);
      n + 6 in s.regs && s.regs[n + 6] == Int(|b|) && t == s.(buf := s.buf[..a] + b + s.buf[a + |b|..])
    ensures Step(s, Copy(Reg(n + 3), p, Reg(n + 6)), req) == Some(t)
  {
    var b := Cut(r, |s.buf| - a);
    if Eval(s, p).Text? { assert Eval(s, p).text[..|b|] == b; } else { assert s.buf[0..0 + |b|] == b; }
  }

  /** A text laid over the front of another. */
  function Onto(text: seq<byte>, under: seq<byte>): seq<byte> {
    if |text| < |under| then text + under[|text|..] else text
  }

  /** What a chain leaves: the front of the buffer holds as much of the text as fits, and the rest of
      the buffer is as it was. */
  ghost predicate Fills(s: State, g: Gen, n: nat, text: seq<byte>, req: Request, t: State) {
    && Ran(s, g.code, req, t) && t.buf == Onto(Cut(text, |s.buf|), s.buf) && Kept(s, t, n) && g.ptr == Buf && Lasts(t, g.len, g.next)
    && Eval(t, g.len) == Int(|Cut(text, |s.buf|)|)
  }

  /** Code for a left-nested chain leaves the first bytes of the concatenation in the buffer, as
      many as it holds, and never copies between overlapping ranges. */
  lemma {:induction false} ChainCorrect(e: Expr, n: nat, s: State, req: Request) returns (t: State)
    requires Chain(e)
    ensures Fills(s, Compile(e, n), n, Meaning(e, req), req, t)
    decreases e
  {
    var g := Compile(e.l, n);
    var h := Compile(e.r, g.next);
    var l, r := Meaning(e.l, req), Meaning(e.r, req);
    if Leaf(e.l) {
      var s1 := LeafCorrect(e.l, n, s, req);
      var s2 := LeafCorrect(e.r, g.next, s1, req);
      YieldsMeans(s, g, n, l, req, s1);
      YieldsMeans(s1, h, g.next, r, req, s2);
      StandsKept(s1, s2, g.ptr, g.len, g.next, h.next, l);
      t := JoinParts(n, s, s1, s2, g, h, l, r, req);
    } else {
      var s1 := ChainCorrect(e.l, n, s, req);
      var s2 := LeafCorrect(e.r, g.next, s1, req);
      YieldsMeans(s1, h, g.next, r, req, s2);
      EvalKept(s1, s2, g.len, g.next);
      t := JoinParts(n, s, s1, s2, g, h, Cut(l, |s.buf|), r, req);
      FillsCut(s, Gen(g.code + h.code + Join(g, h), Buf, Reg(h.next + 7), h.next + 8), n, l, r, req, t);
    }
    PlusCode(e.l, e.r, n);
  }

  /** What does not fit may as well be cut before. */
  lemma FillsCut(s: State, g: Gen, n: nat, l: seq<byte>, r: seq<byte>, req: Request, t: State)
    requires Fills(s, g, n, Cut(l, |s.buf|) + r, req, t)
    ensures Fills(s, g, n, l + r, req, t)
  {
    CutPlus(l, r, |s.buf|);
  }

  /** A join up to its second copy. */
  lemma JoinMeasures(g: Gen, h: Gen, s: State, t: State, left: seq<byte>, right: seq<byte>, l: seq<byte>, r: seq<byte>, room: nat, req: Request)
    returns (t2: State)
    requires Ran(s, g.code + h.code, req, t) && |t.buf| == room && Readable(t, g.ptr, g.len, h.next, left)
    requires Lasts(t, h.len, h.next) && Eval(t, h.len) == Int(|right|)
    requires l == Cut(left, room) && r == Cut(right, room - |l|)
    ensures var n := h.next;
      && Ran(s, g.code + h.code + JoinLeft(g, h) + JoinRoom(h), req, t2) && t2.buf == l + t.buf[|l|..]
      && n + 2 in t2.regs && t2.regs[n + 2] == Int(|l|) && n + 3 in t2.regs && t2.regs[n + 3] == InBuf(|l|)
      && n + 6 in t2.regs && t2.regs[n + 6] == Int(|r|) && Kept(t, t2, n)
  {
    var t1 := CopyLeft(g, h, t, left, right, req);
    EvalKept(t, t1, h.len, h.next);
    t2 := MeasureRight(h, t1, |l|, right, req);
    var front := g.code + h.code + JoinLeft(g, h);
    RanThen(s, g.code + h.code, t, JoinLeft(g, h), t1, req);
    RanThen(s, front, t1, JoinRoom(h), t2, req);
  }

  /** A whole join, whose right part lies outside the buffer. */
  lemma JoinRuns(g: Gen, h: Gen, s: State, s2: State, l: seq<byte>, r: seq<byte>, room: nat, req: Request) returns (t: State)
    requires Ran(s, g.code + h.code, req, s2) && |s2.buf| == room
    requires Readable(s2, g.ptr, g.len, h.next, l) && Stands(s2, h.ptr, h.len, h.next, r)
    ensures Ran(s, g.code + h.code + Join(g, h), req, t) && Kept(s2, t, h.next)
    ensures h.next + 7 in t.regs && t.regs[h.next + 7] == Int(|Cut(l + r, room)|) && t.buf == Onto(Cut(l + r, room), s2.buf)
  {
    var a := Cut(l, room);
    var s4 := JoinMeasures(g, h, s, s2, l, r, a, Cut(r, room - |a|), room, req);
    StandsKept(s2, s4, h.ptr, h.len, h.next, h.next, r);
    t := CopyRight(h, s4, |a|, r, req);
    JoinedBuffer(s2.buf, l, r);
    CutPlus(l, r, room);
    var front := g.code + h.code + JoinLeft(g, h) + JoinRoom(h);
    RanThen(s, front, s4, JoinRight(h), t, req);
    assert front + JoinRight(h) == g.code + h.code + Join(g, h);
  }

  lemma JoinedBuffer(under: seq<byte>, l: seq<byte>, r: seq<byte>)
    ensures var a := Cut(l, |under|);
      var b, w := Cut(r, |under| - |a|), a + under[|a|..];
      w[..|a|] + b + w[|a| + |b|..] == Onto(Cut(l + r, |under|), under)
  {
    var a := Cut(l, |under|);
    var b := Cut(r, |under| - |a|);
    CutPlus(l, r, |under|);
    Behind(a, under, |b|);
    OntoIs(a, b, under);
  }

  lemma OntoIs(a: seq<byte>, b: seq<byte>, under: seq<byte>)
    requires |a| + |b| <= |under|
    ensures a + b + under[|a| + |b|..] == Onto(a + b, under)
  {}

  lemma Behind(a: seq<byte>, under: seq<byte>, k: nat)
    requires |a| + k <= |under|
    ensures var w := a + under[|a|..]; w[..|a|] == a && w[|a| + k..] == under[|a| + k..]
  {
    assert under[|a| + k..] == under[|a|..][k..];
  }

  /** What lies under the text does not matter. */
  lemma OntoSame(text: seq<byte>, b0: seq<byte>, b1: seq<byte>, k: nat)
    requires |b0| == |b1| && k <= |text| && k <= |b0| && b0[k..] == b1[k..]
    ensures Onto(text, b0) == Onto(text, b1)
  {
    if |text| < |b0| { assert b0[|text|..] == b0[k..][|text| - k..] && b1[|text|..] == b1[k..][|text| - k..]; }
  }

  lemma JoinParts(n: nat, s: State, s1: State, s2: State, g: Gen, h: Gen, l: seq<byte>, r: seq<byte>, req: Request) returns (t: State)
    requires Ran(s, g.code, req, s1) && Kept(s, s1, n) && YieldsText(s1, h, g.next, r, req, s2) && n <= g.next <= h.next
    requires |s1.buf| == |s.buf| && Readable(s2, g.ptr, g.len, h.next, l)
    requires var a := |Cut(l, |s.buf|)|; s1.buf[a..] == s.buf[a..]
    ensures Fills(s, Gen(g.code + h.code + Join(g, h), Buf, Reg(h.next + 7), h.next + 8), n, l + r, req, t)
  {
    RanThen(s, g.code, s1, h.code, s2, req);
    t := JoinRuns(g, h, s, s2, l, r, |s.buf|, req);
    OntoSame(Cut(l + r, |s.buf|), s2.buf, s.buf, |Cut(l, |s.buf|)|);
  }

  /** The response: the text at the pointer that the handler stores, as long as it says. */
  function Reply(g: Gen, s: State, req: Request): Option<seq<byte>> {
    match Run(s, g.code, req)
    case None => None
    case Some(t) => Read(t, Eval(t, g.ptr), Eval(t, g.len))
  }

  function Hear(g: Gen, s: State, u: bool): bool { true }

  /** The code answers with v. */
  ghost predicate Replies(g: Gen, s: State, req: Request, v: Option<seq<byte>>) {
    forall u {:trigger Hear(g, s, u)} :: Hear(g, s, u) ==> Reply(g, s, req) == v
  }

  function HearOf(e: Expr, s: State, u: bool): bool { true }

  /** The handler answers with v; with None, its code is undefined. */
  ghost predicate Answers(e: Expr, s: State, req: Request, v: Option<seq<byte>>) {
    forall u {:trigger HearOf(e, s, u)} :: HearOf(e, s, u) ==> Reply(Compile(e, 0), s, req) == v
  }

  lemma AnswersMean(e: Expr, s: State, req: Request, v: Option<seq<byte>>)
    ensures Answers(e, s, req, v) <==> Reply(Compile(e, 0), s, req) == v
  {
    assert HearOf(e, s, true);
  }

  /** It has one answer. */
  lemma AnswersOnce(e: Expr, s: State, req: Request, v: Option<seq<byte>>, w: Option<seq<byte>>)
    requires Answers(e, s, req, v)
    ensures Answers(e, s, req, w) <==> v == w
  {
    AnswersMean(e, s, req, v);
    AnswersMean(e, s, req, w);
  }

  /** So does its code. */
  lemma CodeAnswers(e: Expr, s: State, req: Request, v: Option<seq<byte>>)
    requires Replies(Compile(e, 0), s, req, v)
    ensures Answers(e, s, req, v)
  {
    RepliesMean(Compile(e, 0), s, req, v);
  }

  lemma RepliesMean(g: Gen, s: State, req: Request, v: Option<seq<byte>>)
    ensures Replies(g, s, req, v) <==> Reply(g, s, req) == v
  {
    assert Hear(g, s, true);
  }

  /** A left-nested chain answers with the first bytes of its text, as many as the buffer holds;
      an expression that joins nothing answers with the whole text. */
  lemma ResponseExact(e: Expr, s: State, req: Request)
    requires Chain(e) || Leaf(e)
    ensures Answers(e, s, req, Some(if Chain(e) then Cut(Meaning(e, req), |s.buf|) else Meaning(e, req)))
  {
    if Chain(e) { ChainReplies(e, s, req); } else { LeafReplies(e, s, req); }
  }

  /** Somewhere a `+` joins texts. */
  predicate Joins(e: Expr) {
    match e case Plus(_, _) => true case Choose(_, t, f) => Joins(t) || Joins(f) case _ => false
  }

  lemma {:induction false} LeafExactly(e: Expr)
    ensures Leaf(e) <==> !Joins(e)
  {
    if e.Choose? {
      LeafExactly(e.t);
      LeafExactly(e.e);
    }
  }

  /** Parts joined from left to right, as the parser nests them. */
  function Sum(parts: seq<Expr>): Expr
    requires parts != []
  {
    var n := |parts| - 1;
    if n == 0 then parts[0] else Plus(Sum(parts[..n]), parts[n])
  }

  function Texts(parts: seq<Expr>, req: Request): seq<byte> {
    if parts == [] then [] else Texts(parts[..|parts| - 1], req) + Meaning(parts[|parts| - 1], req)
  }

  lemma {:induction false} SumIsChain(parts: seq<Expr>, req: Request)
    requires parts != [] && forall i :: 0 <= i < |parts| ==> !Joins(parts[i])
    ensures Meaning(Sum(parts), req) == Texts(parts, req) && (|parts| > 1 ==> Chain(Sum(parts))) && (|parts| == 1 ==> Leaf(Sum(parts)))
    decreases |parts|
  {
    var n := |parts| - 1;
    LeafExactly(parts[n]);
    if n > 0 {
      SumIsChain(parts[..n], req);
    } else {
      assert parts[..n] == [];
    }
  }

  /** Any number of parts, joined, answers with the first bytes of their texts one behind the other. */
  lemma PartsAnswered(parts: seq<Expr>, s: State, req: Request)
    requires |parts| > 1 && forall i :: 0 <= i < |parts| ==> !Joins(parts[i])
    ensures Answers(Sum(parts), s, req, Some(Cut(Texts(parts, req), |s.buf|)))
  {
    SumIsChain(parts, req);
    ChainReplies(Sum(parts), s, req);
  }

  /** A handler that returns a field of the request answers with it, one that joins two with both. */
  lemma FieldsAnswer(s: State, verb: seq<byte>, path: seq<byte>, body: seq<byte>)
    ensures var req := Request(verb, path, body);
      && Answers(Req(Method), s, req, Some(verb)) && Answers(Req(Path), s, req, Some(path)) && Answers(Req(Body), s, req, Some(body))
      && Answers(Plus(Req(Method), Req(Path)), s, req, Some(Cut(verb + path, |s.buf|)))
  {
    var req := Request(verb, path, body);
    LeafReplies(Req(Method), s, req);
    LeafReplies(Req(Path), s, req);
    LeafReplies(Req(Body), s, req);
    ChainReplies(Plus(Req(Method), Req(Path)), s, req);
  }

  lemma ChainReplies(e: Expr, s: State, req: Request)
    requires Chain(e)
    ensures Answers(e, s, req, Some(Cut(Meaning(e, req), |s.buf|)))
  {
    var g, text := Compile(e, 0), Cut(Meaning(e, req), |s.buf|);
    var t := ChainCorrect(e, 0, s, req);
    RanMeans(s, g.code, req, t);
    assert t.buf[0..0 + |text|] == text;
    RepliesMean(g, s, req, Some(text));
    CodeAnswers(e, s, req, Some(text));
  }

  lemma LeafReplies(e: Expr, s: State, req: Request)
    requires Leaf(e)
    ensures Answers(e, s, req, Some(Meaning(e, req)))
  {
    var g, text := Compile(e, 0), Meaning(e, req);
    var t := LeafCorrect(e, 0, s, req);
    YieldsMeans(s, g, 0, text, req, t);
    RanMeans(s, g.code, req, t);
    StoodText(t, g.ptr, g.len, g.next, text);
    RepliesMean(g, s, req, Some(text));
    CodeAnswers(e, s, req, Some(text));
  }

  lemma StoodText(s: State, p: Operand, len: Operand, n: nat, text: seq<byte>)
    requires Stands(s, p, len, n, text)
    ensures Read(s, Eval(s, p), Eval(s, len)) == Some(text)
  {
    if Eval(s, p).Text? { assert Eval(s, p).text[..|text|] == text; } else { assert s.buf[0..0] == text; }
  }

  // ----- chains that nest to the right -----

  /** The copy of a right part that lies at the front of the buffer, behind x bytes of the left one. */
  lemma CopyFromFront(s: State, n: nat, x: nat, y: nat, req: Request)
    requires n + 3 in s.regs && s.regs[n + 3] == InBuf(x) && n + 6 in s.regs && s.regs[n + 6] == Int(y) && x + y <= |s.buf|
    ensures Step(s, Copy(Reg(n + 3), Buf, Reg(n + 6)), req)
      == if 0 < x < y then None else Some(s.(buf := s.buf[..x] + s.buf[..y] + s.buf[x + y..]))
  {
    assert s.buf[0..0 + y] == s.buf[..y];
  }

  /** What the code of a `+` reads as its left part when the right one is a chain: a text of its own,
      or the front of the buffer, which the right part has been laid over. */
  function LeftText(a: Expr, b: Expr, room: nat, req: Request): (l: seq<byte>) {
    var l, r := Cut(Meaning(a, req), room), Cut(Meaning(b, req), room);
    if Leaf(a) then Meaning(a, req) else Cut(Onto(r, l), |l|)
  }

  /** A text and what is copied behind it from the front, as much as r is long. */
  function Repeated(l: seq<byte>, r: seq<byte>): Option<seq<byte>> {
    if 0 < |l| < |r| then None else if l == [] then Some(r) else Some(l + l[..|r|])
  }

  /** What a `+` answers whose right part is a chain. */
  function RightNested(a: Expr, b: Expr, room: nat, req: Request): Option<seq<byte>> {
    var l := Cut(LeftText(a, b, room, req), room);
    Repeated(l, Cut(Meaning(b, req), room - |l|))
  }

  /** When the right part is a chain itself, its text lies at the front of the buffer, where the left
      part is written over it; what is copied behind the left part are the bytes at the front. With x
      bytes of the left part and room for y of the right, the copy overlaps exactly when 0 < x < y;
      otherwise the answer repeats the left part, unless that is empty. */
  lemma RightNestedExact(a: Expr, b: Expr, s: State, req: Request)
    requires (Leaf(a) || Chain(a)) && Chain(b)
    ensures Answers(Plus(a, b), s, req, RightNested(a, b, |s.buf|, req))
  {
    var left := LeftText(a, b, |s.buf|, req);
    var l := Cut(left, |s.buf|);
    var r := Cut(Meaning(b, req), |s.buf| - |l|);
    RightNestedAnswers(a, b, Plus(a, b), left, l, r, s, req);
    RightNestedIs(a, b, |s.buf|, req, left, l, r);
  }

  lemma RightNestedIs(a: Expr, b: Expr, room: nat, req: Request, left: seq<byte>, l: seq<byte>, r: seq<byte>)
    requires left == LeftText(a, b, room, req) && l == Cut(left, room) && r == Cut(Meaning(b, req), room - |l|)
    ensures RightNested(a, b, room, req) == Repeated(l, r)
  {}

  lemma RightNestedAnswers(a: Expr, b: Expr, e: Expr, left: seq<byte>, l: seq<byte>, r: seq<byte>, s: State, req: Request)
    requires (Leaf(a) || Chain(a)) && Chain(b) && e == Plus(a, b) && left == LeftText(a, b, |s.buf|, req)
    requires l == Cut(left, |s.buf|) && r == Cut(Meaning(b, req), |s.buf| - |l|)
    ensures Answers(e, s, req, Repeated(l, r))
  {
    var g := Compile(a, 0);
    var h := Compile(b, g.next);
    var t := BothParts(a, b, s, req);
    PlusCode(a, b, 0);
    JoinReplies(g, h, Compile(e, 0), s, t, left, Cut(Meaning(b, req), |s.buf|), l, r, |s.buf|, req);
    CodeAnswers(e, s, req, Repeated(l, r));
  }

  lemma PlusCode(a: Expr, b: Expr, n: nat)
    ensures var g := Compile(a, n);
      var h := Compile(b, g.next);
      Compile(Plus(a, b), n) == Gen(g.code + h.code + Join(g, h), Buf, Reg(h.next + 7), h.next + 8)
  {}

  /** The end of a join whose right part lies at the front of the buffer. */
  lemma CopyRepeats(h: Gen, s: State, x: nat, y: nat, req: Request) returns (t: State)
    requires var n := h.next;
      && h.ptr == Buf && x + y <= |s.buf| && n + 2 in s.regs && s.regs[n + 2] == Int(x)
      && n + 3 in s.regs && s.regs[n + 3] == InBuf(x) && n + 6 in s.regs && s.regs[n + 6] == Int(y)
    ensures Run(s, JoinRight(h), req) == if 0 < x < y then None else Some(t)
    ensures h.next + 7 in t.regs && t.regs[h.next + 7] == Int(x + y)
    ensures t.buf == s.buf[..x] + s.buf[..y] + s.buf[x + y..]
  {
    var n, i, j := h.next, JoinRight(h)[0], JoinRight(h)[1];
    CopyFromFront(s, n, x, y, req);
    var s1 := s.(buf := s.buf[..x] + s.buf[..y] + s.buf[x + y..]);
    t := s1.(regs := s1.regs[n + 7 := Int(x + y)]);
    assert JoinRight(h) == [i, j] && [i, j][1..] == [j] && [j][1..] == [];
    if x == 0 || y <= x {
      assert Run(s1, [j], req) == Some(t);
    }
  }

  /** A join whose right part lies at the front of the buffer, from the state before it. */
  lemma JoinReplies(g: Gen, h: Gen, whole: Gen, s: State, t: State, left: seq<byte>, right: seq<byte>, l: seq<byte>, r: seq<byte>, room: nat, req: Request)
    requires Ran(s, g.code + h.code, req, t) && |t.buf| == room && Readable(t, g.ptr, g.len, h.next, left)
    requires h.ptr == Buf && Lasts(t, h.len, h.next) && Eval(t, h.len) == Int(|right|) && right <= t.buf
    requires l == Cut(left, room) && r == Cut(right, room - |l|)
    requires whole == Gen(g.code + h.code + Join(g, h), Buf, Reg(h.next + 7), h.next + 8)
    ensures Replies(whole, s, req, Repeated(l, r))
  {
    var t2 := JoinMeasures(g, h, s, t, left, right, l, r, room, req);
    var u := CopyRepeats(h, t2, |l|, |r|, req);
    var front := g.code + h.code + JoinLeft(g, h) + JoinRoom(h);
    RanMeans(s, front, req, t2);
    RunParts(s, front, JoinRight(h), req);
    assert front + JoinRight(h) == whole.code;
    FrontTwice(t.buf, l, r);
    assert u.buf[0..0 + (|l| + |r|)] == t2.buf[..|l|] + t2.buf[..|r|];
    RepliesMean(whole, s, req, Repeated(l, r));
  }

  /** The bytes at the front, after a text is written there. */
  lemma FrontTwice(b: seq<byte>, x: seq<byte>, y: seq<byte>)
    requires |x| + |y| <= |b| && y <= b
    ensures var w := x + b[|x|..];
      w[..|x|] == x && (x == [] ==> w[..|x|] + w[..|y|] == y) && (|y| <= |x| ==> w[..|x|] + w[..|y|] == x + x[..|y|])
  {}

  /** The left part is empty, or begins with as much of the right part as fits behind it and is at
      least as long; where the right part was laid over it, it also begins with as much of that. */
  predicate RepeatIsRight(l: seq<byte>, right: seq<byte>, room: nat, over: bool)
    requires |l| <= room
  {
    l == [] || (Cut(right, room - |l|) <= l && (over ==> Cut(right, |l|) <= l))
  }

  /** So that is exactly when the answer is right. */
  lemma RightNestedRight(a: Expr, b: Expr, s: State, req: Request)
    requires (Leaf(a) || Chain(a)) && Chain(b)
    ensures Answers(Plus(a, b), s, req, Some(Cut(Meaning(Plus(a, b), req), |s.buf|)))
      <==> RepeatIsRight(Cut(Meaning(a, req), |s.buf|), Meaning(b, req), |s.buf|, Chain(a))
  {
    RightNestedExact(a, b, s, req);
    RightNestedWhole(a, b, |s.buf|, req);
    AnswersOnce(Plus(a, b), s, req, RightNested(a, b, |s.buf|, req), Some(Cut(Meaning(Plus(a, b), req), |s.buf|)));
  }

  lemma RightNestedWhole(a: Expr, b: Expr, room: nat, req: Request)
    requires (Leaf(a) || Chain(a)) && Chain(b)
    ensures RightNested(a, b, room, req) == Some(Cut(Meaning(Plus(a, b), req), room))
      <==> RepeatIsRight(Cut(Meaning(a, req), room), Meaning(b, req), room, Chain(a))
  {
    LeftTextCut(a, b, room, req);
    var left := Cut(LeftText(a, b, room, req), room);
    RepeatedWhole(Meaning(a, req), Meaning(b, req), left, room, Chain(a));
  }

  /** The same on the texts of both parts and on what is read of the left one. */
  lemma RepeatedWhole(x: seq<byte>, y: seq<byte>, left: seq<byte>, room: nat, over: bool)
    requires var l := Cut(x, room); left == if over then Cut(Onto(Cut(y, room), l), |l|) else l
    ensures |left| <= room
    ensures Repeated(left, Cut(y, room - |left|)) == Some(Cut(x + y, room)) <==> RepeatIsRight(Cut(x, room), y, room, over)
  {
    RepeatedOver(Cut(x, room), left, y, room, over);
    CutPlus(x, y, room);
  }

  /** The left part as it is read. */
  lemma LeftTextCut(a: Expr, b: Expr, room: nat, req: Request)
    requires Leaf(a) || Chain(a)
    ensures var l := Cut(Meaning(a, req), room);
      Cut(LeftText(a, b, room, req), room) == if Chain(a) then Cut(Onto(Cut(Meaning(b, req), room), l), |l|) else l
  {}

  lemma RepeatedOver(l: seq<byte>, k: seq<byte>, m: seq<byte>, room: nat, over: bool)
    requires |l| <= room && k == if over then Cut(Onto(Cut(m, room), l), |l|) else l
    ensures |k| == |l|
    ensures var r := Cut(m, room - |l|); Repeated(k, r) == Some(l + r) <==> RepeatIsRight(l, m, room, over)
  {
    var r := Cut(m, room - |l|);
    if over { LaidOver(l, Cut(m, room)); }
    assert Cut(Cut(m, room), |l|) == Cut(m, |l|);
    if l == [] {
      assert l + r == r;
    } else if |r| <= |l| {
      SameParts(k, k[..|r|], l, r);
      if k == l { assert r <= l <==> r == l[..|r|]; }
    }
  }

  lemma SameParts(a: seq<byte>, b: seq<byte>, c: seq<byte>, d: seq<byte>)
    requires |a| == |c|
    ensures a + b == c + d <==> a == c && b == d
  {
    if a + b == c + d { assert a == (a + b)[..|a|] && b == (a + b)[|a|..] && c == (c + d)[..|c|] && d == (c + d)[|c|..]; }
  }

  /** It is undefined exactly when some of the left part fits the buffer, and more of the right. */
  lemma RightNestedOverlaps(a: Expr, b: Expr, s: State, req: Request)
    requires (Leaf(a) || Chain(a)) && Chain(b)
    ensures var x := |Cut(Meaning(a, req), |s.buf|)|;
      Answers(Plus(a, b), s, req, None) <==> 0 < x < |Cut(Meaning(b, req), |s.buf| - x)|
  {
    LeftTextCut(a, b, |s.buf|, req);
    RightNestedExact(a, b, s, req);
    AnswersOnce(Plus(a, b), s, req, RightNested(a, b, |s.buf|, req), None);
  }

  /** Both parts are compiled one after the other, and the right one leaves its text in the buffer. */
  lemma BothParts(a: Expr, b: Expr, s: State, req: Request) returns (t: State)
    requires (Leaf(a) || Chain(a)) && Chain(b)
    ensures var g := Compile(a, 0);
      var h := Compile(b, g.next);
      var r := Cut(Meaning(b, req), |s.buf|);
      && Ran(s, g.code + h.code, req, t) && |t.buf| == |s.buf| && r <= t.buf
      && h.ptr == Buf && Lasts(t, h.len, h.next) && Eval(t, h.len) == Int(|r|)
      && Readable(t, g.ptr, g.len, h.next, LeftText(a, b, |s.buf|, req))
  {
    var g := Compile(a, 0);
    var h := Compile(b, g.next);
    var l := Meaning(a, req);
    if Leaf(a) {
      var s1 := LeafCorrect(a, 0, s, req);
      YieldsMeans(s, g, 0, l, req, s1);
      t := ChainCorrect(b, g.next, s1, req);
      StandsKept(s1, t, g.ptr, g.len, g.next, h.next, l);
      RanThen(s, g.code, s1, h.code, t, req);
    } else {
      var s1 := ChainCorrect(a, 0, s, req);
      t := ChainCorrect(b, g.next, s1, req);
      EvalKept(s1, t, g.len, g.next);
      RanThen(s, g.code, s1, h.code, t, req);
    }
  }

  // ----- a choice between chains -----

  predicate Part(e: Expr) { Leaf(e) || Chain(e) }

  /** What a part answers by itself. */
  function Shown(e: Expr, room: nat, req: Request): seq<byte> {
    if Chain(e) then Cut(Meaning(e, req), room) else Meaning(e, req)
  }

  /** A part leaves its text in the buffer if it is a chain, and elsewhere if it is not. */
  ghost predicate Shows(e: Expr, g: Gen, s: State, n: nat, text: seq<byte>, req: Request, t: State) {
    && Ran(s, g.code, req, t) && Kept(s, t, n) && |t.buf| == |s.buf| && Lasts(t, g.len, g.next) && Eval(t, g.len) == Int(|text|)
    && if Chain(e) then g.ptr == Buf && |text| <= |s.buf| && t.buf == Onto(text, s.buf)
       else t.buf == s.buf && Stands(t, g.ptr, g.len, g.next, text)
  }

  lemma PartRuns(e: Expr, n: nat, s: State, req: Request) returns (t: State)
    requires Part(e)
    ensures Shows(e, Compile(e, n), s, n, Shown(e, |s.buf|, req), req, t)
  {
    if Leaf(e) {
      t := LeafCorrect(e, n, s, req);
      YieldsMeans(s, Compile(e, n), n, Meaning(e, req), req, t);
    } else {
      t := ChainCorrect(e, n, s, req);
    }
  }

  /** What a choice reads: a chain in the second branch has been laid over one in the first. */
  function Chosen(e: Expr, room: nat, req: Request): seq<byte>
    requires e.Choose?
  {
    var l, r := Shown(e.t, room, req), Shown(e.e, room, req);
    if !Holds(e.c) then r else if Chain(e.t) && Chain(e.e) then Cut(Onto(r, l), |l|) else l
  }

  /** Both branches run before the selection, and both chains write to the front of the buffer: when
      the condition holds, the text of the first is read with the second laid over it. */
  lemma ChoiceExact(e: Expr, s: State, req: Request)
    requires e.Choose? && Part(e.t) && Part(e.e)
    ensures Answers(e, s, req, Some(Chosen(e, |s.buf|, req)))
  {
    ChoiceReplies(e, s, req);
  }

  /** So a choice answers with the text of its branch exactly when the condition fails, or one branch
      is no chain, or the two texts agree as far as both go. */
  lemma ChoiceRight(e: Expr, s: State, req: Request)
    requires e.Choose? && Part(e.t) && Part(e.e)
    ensures var l, r := Shown(e.t, |s.buf|, req), Shown(e.e, |s.buf|, req);
      Answers(e, s, req, Some(if Holds(e.c) then l else r))
      <==> !Holds(e.c) || !Chain(e.t) || !Chain(e.e) || Cut(r, |l|) <= l
  {
    ChoiceExact(e, s, req);
    var l, r := Shown(e.t, |s.buf|, req), Shown(e.e, |s.buf|, req);
    LaidOver(l, r);
    AnswersOnce(e, s, req, Some(Chosen(e, |s.buf|, req)), Some(if Holds(e.c) then l else r));
  }

  lemma LaidOver(l: seq<byte>, r: seq<byte>)
    ensures Cut(Onto(r, l), |l|) == l <==> Cut(r, |l|) <= l
  {
    var k := Cut(r, |l|);
    assert Cut(Onto(r, l), |l|) == k + l[|k|..];
    assert (k + l[|k|..])[..|k|] == k && l == l[..|k|] + l[|k|..];
  }

  lemma ChoiceReplies(e: Expr, s: State, req: Request)
    requires e.Choose? && Part(e.t) && Part(e.e)
    ensures Answers(e, s, req, Some(Chosen(e, |s.buf|, req)))
  {
    var m := |Test(e.c, 0)|;
    var g := Compile(e.t, m);
    var h := Compile(e.e, g.next);
    var s0 := TestRuns(e.c, 0, s, req);
    var s1 := PartRuns(e.t, m, s0, req);
    var s2 := PartRuns(e.e, g.next, s1, req);
    CompileChoose(e, 0);
    ChoiceEnds(e, g, h, Compile(e, 0), s, s0, s1, s2, Shown(e.t, |s.buf|, req), Shown(e.e, |s.buf|, req), Chosen(e, |s.buf|, req), req);
    CodeAnswers(e, s, req, Some(Chosen(e, |s.buf|, req)));
  }

  lemma ChoiceEnds(e: Expr, g: Gen, h: Gen, whole: Gen, s: State, s0: State, s1: State, s2: State, l: seq<byte>, r: seq<byte>, v: seq<byte>, req: Request)
    requires e.Choose? && Decides(s, Test(e.c, 0), TestOf(e.c, 0), Holds(e.c), 0, req, s0)
    requires |Test(e.c, 0)| <= g.next <= h.next && whole == Choice(Test(e.c, 0), TestOf(e.c, 0), g, h)
    requires Shows(e.t, g, s0, |Test(e.c, 0)|, l, req, s1) && Shows(e.e, h, s1, g.next, r, req, s2)
    requires v == if !Holds(e.c) then r else if Chain(e.t) && Chain(e.e) then Cut(Onto(r, l), |l|) else l
    ensures Replies(whole, s, req, Some(v))
  {
    EvalKept(s1, s2, g.len, g.next);
    var t := ChoiceRuns(Test(e.c, 0), TestOf(e.c, 0), Holds(e.c), g, h, s, s0, s1, s2, req);
    ChosenText(e, g, h, s0, s1, s2, l, r, req);
    EndReplies(whole, s, t, v, req);
  }

  lemma EndReplies(whole: Gen, s: State, t: State, v: seq<byte>, req: Request)
    requires Ran(s, whole.code, req, t) && Read(t, Eval(t, whole.ptr), Eval(t, whole.len)) == Some(v)
    ensures Replies(whole, s, req, Some(v))
  {
    RanMeans(s, whole.code, req, t);
    RepliesMean(whole, s, req, Some(v));
  }

  lemma ChoiceRuns(test: seq<Instr>, cond: Operand, b: bool, g: Gen, h: Gen, s: State, s0: State, s1: State, s2: State, req: Request)
    returns (t: State)
    requires Decides(s, test, cond, b, 0, req, s0) && |test| <= g.next <= h.next
    requires Ran(s0, g.code, req, s1) && Kept(s0, s1, |test|) && |s0.buf| == |s1.buf|
    requires Ran(s1, h.code, req, s2) && Kept(s1, s2, g.next) && |s1.buf| == |s2.buf|
    requires Lasts(s2, g.len, h.next) && Lasts(s2, h.len, h.next)
    ensures Ran(s, Choice(test, cond, g, h).code, req, t) && t.buf == s2.buf
    ensures h.next in t.regs && t.regs[h.next] == Eval(s2, if b then g.ptr else h.ptr)
    ensures h.next + 1 in t.regs && t.regs[h.next + 1] == Eval(s2, if b then g.len else h.len)
  {
    EvalKept(s0, s1, cond, |test|);
    EvalKept(s1, s2, cond, |test|);
    t := SelectEither(s2, cond, b, g, h, req);
    RanThen(s, test, s0, g.code, s1, req);
    RanThen(s, test + g.code, s1, h.code, s2, req);
    RanThen(s, test + g.code + h.code, s2, Selects(cond, g, h), t, req);
  }

  /** What the selected pointer and length stand for when both branches have run. */
  lemma ChosenText(e: Expr, g: Gen, h: Gen, s0: State, s1: State, s2: State, l: seq<byte>, r: seq<byte>, req: Request)
    requires e.Choose? && g.next <= h.next
    requires Shows(e.t, g, s0, |Test(e.c, 0)|, l, req, s1) && Shows(e.e, h, s1, g.next, r, req, s2)
    ensures Read(s2, Eval(s2, h.ptr), Eval(s2, h.len)) == Some(r)
    ensures Read(s2, Eval(s2, g.ptr), Eval(s2, g.len)) == Some(if Chain(e.t) && Chain(e.e) then Cut(Onto(r, l), |l|) else l)
  {
    if Chain(e.e) { assert s2.buf[0..0 + |r|] == r; } else { StoodText(s2, h.ptr, h.len, h.next, r); }
    EvalKept(s1, s2, g.len, g.next);
    if Chain(e.t) {
      assert s2.buf[0..0 + |l|] == if Chain(e.e) then Cut(Onto(r, l), |l|) else l;
    } else {
      StandsKept(s1, s2, g.ptr, g.len, g.next, h.next, l);
      StoodText(s2, g.ptr, g.len, h.next, l);
    }
  }

  // ----- the generator -----

  class FnIrGen {
    var labels: nat
    var output: seq<Instr>

    constructor ()
      ensures labels == 0 && output == []
    {
      labels, output := 0, [];
    }

    method Fresh() returns (n: nat)
      modifies `labels
      ensures n == old(labels) && labels == n + 1
    {
      n := labels;
      labels := labels + 1;
    }

    method Emit(i: Instr)
      modifies `output
      ensures output == old(output) + [i]
    {
      output := output + [i];
    }

    method GenStrConstant(text: seq<byte>) returns (ptr: Operand, len: Operand)
      modifies this
      ensures var g := Compile(Lit(text), old(labels)); output == old(output) + g.code && labels == g.next && ptr == g.ptr && len == g.len
    {
      var constant := Fresh();
      var p := Fresh();
      Emit(TextAt(p, text));
      return Reg(p), Num(|text|);
    }

    method GenCondition(c: Cond) returns (o: Operand)
      modifies this
      ensures output == old(output) + Test(c, old(labels)) && labels == old(labels) + |Test(c, old(labels))| && o == TestOf(c, old(labels))
    {
      match c
      case Const(b) =>
        assert output + [] == output;
        return Flag(b);
      case Compare(equal, l, r) =>
        var n := Fresh();
        Emit(Icmp(n, equal, l, r));
        return Reg(n);
    }

    method GenField(f: Field) returns (ptr: Operand, len: Operand)
      modifies this
      ensures var g := Compile(Req(f), old(labels)); output == old(output) + g.code && labels == g.next && ptr == g.ptr && len == g.len
    {
      var p := Fresh();
      var l := Fresh();
      Emit(FieldAt(p, Offset(f)));
      var pv := Fresh();
      Emit(LoadPtr(pv, p));
      Emit(FieldAt(l, Offset(f) + 8));
      var lv := Fresh();
      Emit(LoadLen(lv, l));
      return Reg(pv), Reg(lv);
    }

    static lemma Regroup(s: seq<Instr>, a: seq<Instr>, b: seq<Instr>, c: seq<Instr>, d: seq<Instr>)
      ensures s + a + b + c + d == s + (a + b + c + d)
    {}

    method GenSelects(cond: Operand, tp: Operand, tl: Operand, fp: Operand, fl: Operand) returns (ptr: Operand, len: Operand)
      modifies this
      ensures var n := old(labels);
        && output == old(output) + Selects(cond, Gen([], tp, tl, n), Gen([], fp, fl, n))
        && labels == n + 2 && ptr == Reg(n) && len == Reg(n + 1)
    {
      var p := Fresh();
      Emit(Select(p, cond, tp, fp));
      var l := Fresh();
      Emit(Select(l, cond, tl, fl));
      return Reg(p), Reg(l);
    }

    method GenJoin(ghost g: Gen, ghost h: Gen, lp: Operand, ll: Operand, rp: Operand, rl: Operand) returns (len: Operand)
      requires lp == g.ptr && ll == g.len && rp == h.ptr && rl == h.len && labels == h.next
      modifies this
      ensures output == old(output) + Join(g, h) && labels == h.next + 8 && len == Reg(h.next + 7)
    {
      var left := GenLeft(g, h, lp, ll, rl);
      var offset, right := GenRoom(h, left, rl);
      len := GenRight(h, left, offset, right, rp);
      Regroup(old(output), [], JoinLeft(g, h), JoinRoom(h), JoinRight(h));
      assert [] + JoinLeft(g, h) == JoinLeft(g, h);
    }

    method GenRoom(ghost h: Gen, left: nat, rl: Operand) returns (offset: nat, right: nat)
      requires rl == h.len && left == h.next + 2 && labels == h.next + 3
      modifies this
      ensures output == old(output) + JoinRoom(h) && labels == h.next + 7 && offset == h.next + 3 && right == h.next + 6
    {
      offset := Fresh();
      Emit(BufAt(offset, Reg(left)));
      var room := Fresh();
      Emit(Sub(room, BufLen, Reg(left)));
      var more := Fresh();
      Emit(Above(more, rl, Reg(room)));
      right := Fresh();
      Emit(Select(right, Reg(more), Reg(room), rl));
    }

    method GenRight(ghost h: Gen, left: nat, offset: nat, right: nat, rp: Operand) returns (len: Operand)
      requires rp == h.ptr && left == h.next + 2 && offset == h.next + 3 && right == h.next + 6 && labels == h.next + 7
      modifies this
      ensures output == old(output) + JoinRight(h) && labels == h.next + 8 && len == Reg(h.next + 7)
    {
      Emit(Copy(Reg(offset), rp, Reg(right)));
      var sum := Fresh();
      Emit(Add(sum, Reg(left), Reg(right)));
      len := Reg(sum);
    }

    method GenLeft(ghost g: Gen, ghost h: Gen, lp: Operand, ll: Operand, rl: Operand) returns (left: nat)
      requires lp == g.ptr && ll == g.len && rl == h.len && labels == h.next
      modifies this
      ensures output == old(output) + JoinLeft(g, h) && labels == h.next + 3 && left == h.next + 2
    {
      var total := Fresh();
      Emit(Add(total, ll, rl));
      var above := Fresh();
      Emit(Above(above, ll, BufLen));
      left := Fresh();
      Emit(Select(left, Reg(above), BufLen, ll));
      Emit(Copy(Buf, lp, Reg(left)));
    }

    method GenExpr(e: Expr) returns (ptr: Operand, len: Operand)
      modifies this
      ensures var g := Compile(e, old(labels)); output == old(output) + g.code && labels == g.next && ptr == g.ptr && len == g.len
      decreases e, 1
    {
      match e
      case Lit(text) => ptr, len := GenStrConstant(text);
      case Req(f) => ptr, len := GenField(f);
      case Nothing =>
        var n := Fresh();
        Emit(BufAt(n, Num(0)));
        return Reg(n), Num(0);
      case Choose(_, _, _) => ptr, len := GenIf(e);
      case Plus(_, _) => ptr, len := GenPlus(e);
    }

    static lemma ChooseOutput(s: seq<Instr>, e: Expr, n: nat, g: Gen, h: Gen, after: seq<Instr>)
      requires e.Choose? && g == Compile(e.t, n + |Test(e.c, n)|) && h == Compile(e.e, g.next)
      requires after == s + Test(e.c, n) + g.code + h.code + Selects(TestOf(e.c, n), g, h)
      ensures Generated(s, e, n, after, Reg(h.next), Reg(h.next + 1), h.next + 2)
    {
      CompileChoose(e, n);
      Regroup(s, Test(e.c, n), g.code, h.code, Selects(TestOf(e.c, n), g, h));
    }

    /** What the compiler specifies stands behind the output, with its operands and next label. */
    static ghost predicate Generated(s: seq<Instr>, e: Expr, n: nat, after: seq<Instr>, ptr: Operand, len: Operand, next: nat) {
      var g := Compile(e, n); after == s + g.code && next == g.next && ptr == g.ptr && len == g.len
    }

    method GenIf(e: Expr) returns (ptr: Operand, len: Operand)
      requires e.Choose?
      modifies this
      ensures var g := Compile(e, old(labels)); output == old(output) + g.code && labels == g.next && ptr == g.ptr && len == g.len
      decreases e, 0
    {
      var cond := GenCondition(e.c);
      ghost var g := Compile(e.t, labels);
      var tp, tl := GenExpr(e.t);
      ghost var h := Compile(e.e, labels);
      var fp, fl := GenExpr(e.e);
      ptr, len := GenSelects(cond, tp, tl, fp, fl);
      ChooseOutput(old(output), e, old(labels), g, h, output);
    }

    method GenPlus(e: Expr) returns (ptr: Operand, len: Operand)
      requires e.Plus?
      modifies this
      ensures var g := Compile(e, old(labels)); output == old(output) + g.code && labels == g.next && ptr == g.ptr && len == g.len
      decreases e, 0
    {
      ghost var g := Compile(e.l, labels);
      var lp, ll := GenExpr(e.l);
      ghost var h := Compile(e.r, labels);
      var rp, rl := GenExpr(e.r);
      len := GenJoin(g, h, lp, ll, rp, rl);
      ptr := Buf;
      CompilePlus(old(output), e, old(labels));
    }

    static lemma CompilePlus(s: seq<Instr>, e: Expr, n: nat)
      requires e.Plus?
      ensures var g := Compile(e.l, n);
        var h := Compile(e.r, g.next);
        s + g.code + h.code + Join(g, h) == s + Compile(e, n).code
        && Compile(e, n).ptr == Buf && Compile(e, n).len == Reg(h.next + 7) && Compile(e, n).next == h.next + 8
    {
      var g := Compile(e.l, n);
      var h := Compile(e.r, g.next);
      PlusCode(e.l, e.r, n);
      Regroup(s, [], g.code, h.code, Join(g, h));
      assert [] + g.code == g.code && s + [] == s;
    }
  }
}
