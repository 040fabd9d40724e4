/** Meaning of the integer fragment in the tree-walking interpreter, on values.
    `fuel` bounds the rounds of `while`; a run that finishes does so for some fuel. */
module Interp {
  import opened Powers
  import opened Int64
  import opened Ast

  datatype Error = NotFound(name: Name) | ConstAssign(name: Name) | Overflow | DivideByZero

  datatype Result<+T> = Ok(value: T) | Err(error: Error) | OutOfFuel

  /** Two ways in which the back ends may part, noted when a run meets one. */
  datatype Note = RoundedCompare | IterationsDiffer

  type Frame = map<Name, int64>

  datatype State = State(frames: seq<Frame>, consts: set<Name>, output: seq<int64>, notes: set<Note>)

  // ----- variables -----

  /** Innermost frame first; an unknown name is an error. */
  function GetVar(frames: seq<Frame>, x: Name): Result<int64> {
    if frames == [] then Err(NotFound(x))
    else
      var top := frames[|frames| - 1];
      if x in top then Ok(top[x]) else GetVar(frames[..|frames| - 1], x)
  }

  predicate Bound(frames: seq<Frame>, x: Name) {
    exists i :: 0 <= i < |frames| && x in frames[i]
  }

  function Put(f: Frame, x: Name, v: int64): Frame { f[x := v] }

  /** The innermost frame that holds the name is updated. */
  function Update(frames: seq<Frame>, x: Name, v: int64): (r: seq<Frame>)
    ensures |r| == |frames|
  {
    if frames == [] then []
    else
      var n := |frames| - 1;
      if x in frames[n] then frames[n := Put(frames[n], x, v)]
      else Update(frames[..n], x, v) + [frames[n]]
  }

  function Declare(frames: seq<Frame>, x: Name, v: int64): seq<Frame>
    requires frames != []
  {
    frames[|frames| - 1 := Put(frames[|frames| - 1], x, v)]
  }

  /** A name that no frame holds goes to the top frame. */
  function SetVar(frames: seq<Frame>, x: Name, v: int64): seq<Frame>
    requires frames != []
  {
    if Bound(frames, x) then Update(frames, x, v) else Declare(frames, x, v)
  }

  // ----- expressions -----

  function Checked(x: int): Result<int64> {
    if Fits(x) then Ok(x) else Err(Overflow)
  }

  /** `eval_binop` on two integers, with Rust's overflow checks. */
  function EvalBinop(op: BinOp, a: int64, b: int64): Result<int64> {
    match op
    case Add => Checked(a + b)
    case Sub => Checked(a - b)
    case Mul => Checked(a * b)
    case Div => if b == 0 then Err(DivideByZero) else Checked(TruncDiv(a, b))
    case Mod => if b == 0 then Err(DivideByZero)
                else if a == -TWO_63 && b == -1 then Err(Overflow) else Checked(TruncMod(a, b))
    case BitAnd => Ok(Bits64(AndBits, a, b))
    case BitOr => Ok(Bits64(OrBits, a, b))
    case BitXor => Ok(Bits64(XorBits, a, b))
    case Shl => if 0 <= b < 64 then Ok(Wrap(a * Pow2(b))) else Err(Overflow)
    case Shr => if 0 <= b < 64 then Checked(a / Pow2(b)) else Err(Overflow)
  }

  /** The right operand is evaluated first. */
  function EvalExpr(e: Expr, frames: seq<Frame>): Result<int64> {
    match e
    case LitInt(n) => Ok(n)
    case Ident(x) => GetVar(frames, x)
    case UnOp(op, inner) =>
      (match EvalExpr(inner, frames)
       case Ok(v) => (match op case Neg => Checked(0 - v) case BitNot => Ok(-1 - v))
       case Err(e) => Err(e)
       case OutOfFuel => OutOfFuel)
    case BinOp(op, l, r) =>
      match EvalExpr(r, frames)
      case Ok(b) =>
        (match EvalExpr(l, frames)
         case Ok(a) => EvalBinop(op, a, b)
         case Err(e) => Err(e)
         case OutOfFuel => OutOfFuel)
      case Err(e) => Err(e)
      case OutOfFuel => OutOfFuel
  }

  /** Integers are compared after conversion to 64-bit floats. */
  predicate CompareF64(op: CmpOp, a: int, b: int) {
    CompareInt(op, ToF64(a), ToF64(b))
  }

  /** Guard under which the conversion changes the answer: two different integers
      become the same float and their order matters to the operator. */
  predicate Conflated(op: CmpOp, a: int, b: int) {
    ToF64(a) == ToF64(b) && if op.Lt? || op.Ge? then a < b else a > b
  }

  datatype Truth = Truth(b: bool, notes: set<Note>)

  function EvalCond(c: Cond, frames: seq<Frame>): Result<Truth> {
    match c
    case LitBool(b) => Ok(Truth(b, {}))
    case Not(d) =>
      (match EvalCond(d, frames)
       case Ok(t) => Ok(Truth(!t.b, t.notes))
       case Err(e) => Err(e)
       case OutOfFuel => OutOfFuel)
    case Cmp(op, l, r) =>
      match EvalExpr(r, frames)
      case Ok(b) =>
        (match EvalExpr(l, frames)
         case Ok(a) => Ok(Truth(CompareF64(op, a, b), if Conflated(op, a, b) then {RoundedCompare} else {}))
         case Err(e) => Err(e)
         case OutOfFuel => OutOfFuel)
      case Err(e) => Err(e)
      case OutOfFuel => OutOfFuel
  }

  // ----- what a `for` runs over -----

  function Ascend(lo: int, hi: int): (r: seq<int64>)
    requires lo <= hi ==> Fits(lo) && Fits(hi)
    ensures forall k :: k in r ==> lo <= k <= hi
    decreases hi - lo
  {
    if lo > hi then [] else [lo] + Ascend(lo + 1, hi)
  }

  function Descend(hi: int, lo: int): (r: seq<int64>)
    requires lo <= hi ==> Fits(lo) && Fits(hi)
    ensures forall k :: k in r ==> lo <= k <= hi
    decreases hi - lo
  {
    if hi < lo then [] else [hi] + Descend(hi - 1, lo)
  }

  /** `0..n` for an integer; an inclusive walk from a to b, up or down, for a range. */
  datatype Bounds = Count(n: int64) | FromTo(a: int64, b: int64) {
    function Values(): seq<int64> {
      match this
      case Count(n) => Ascend(0, n - 1)
      case FromTo(a, b) => if a <= b then Ascend(a, b) else Descend(a, b)
    }

    /** The bound that the code generator keeps: it forgets the start of a range. */
    function Last(): int64 { if Count? then n else b }

    /** What the generated loop runs over. */
    function CompiledValues(): seq<int64> { Ascend(0, Last()) }

    /** Guard under which the two loops differ. */
    predicate Differ() {
      match this
      case Count(n) => n >= 0
      case FromTo(a, b) => a != 0 || b < 0
    }
  }

  /** The half-open end of an inclusive range is one past the bound and may overflow. */
  function EvalIter(it: Iter, frames: seq<Frame>): Result<Bounds> {
    match it
    case Upto(e) =>
      (match EvalExpr(e, frames)
       case Ok(n) => Ok(Count(n))
       case Err(e) => Err(e)
       case OutOfFuel => OutOfFuel)
    case Range(s, e) =>
      match EvalExpr(s, frames)
      case Ok(a) =>
        (match EvalExpr(e, frames)
         case Ok(b) => if Fits(if a <= b then b + 1 else b - 1) then Ok(FromTo(a, b)) else Err(Overflow)
         case Err(e) => Err(e)
         case OutOfFuel => OutOfFuel)
      case Err(e) => Err(e)
      case OutOfFuel => OutOfFuel
  }

  // ----- statements -----

  function Exec(s: Stmt, st: State, fuel: nat): (r: Result<State>)
    requires st.frames != []
    ensures r.Ok? ==> |r.value.frames| == |st.frames|
    decreases fuel, s, 0
  {
    match s
    case Decl(x, e, isConst) =>
      (match EvalExpr(e, st.frames)
       case Ok(v) => Ok(st.(consts := if isConst then st.consts + {x} else st.consts, frames := Declare(st.frames, x, v)))
       case Err(e) => Err(e)
       case OutOfFuel => OutOfFuel)
    case Assign(x, e) =>
      if x in st.consts then Err(ConstAssign(x)) else
      (match EvalExpr(e, st.frames)
       case Ok(v) => Ok(st.(frames := SetVar(st.frames, x, v)))
       case Err(e) => Err(e)
       case OutOfFuel => OutOfFuel)
    case Print(e) =>
      (match EvalExpr(e, st.frames)
       case Ok(v) => Ok(st.(output := st.output + [v]))
       case Err(e) => Err(e)
       case OutOfFuel => OutOfFuel)
    case If(c, thn, els) =>
      (match EvalCond(c, st.frames)
       case Ok(t) => ExecScope(map[], if t.b then thn else els, st.(notes := st.notes + t.notes), fuel)
       case Err(e) => Err(e)
       case OutOfFuel => OutOfFuel)
    case While(c, body) =>
      (match EvalCond(c, st.frames)
       case Ok(t) =>
         var st1 := st.(notes := st.notes + t.notes);
         if !t.b then Ok(st1)
         else if fuel == 0 then OutOfFuel
         else
           (match ExecScope(map[], body, st1, fuel - 1)
            case Ok(st2) => Exec(s, st2, fuel - 1)
            case Err(e) => Err(e)
            case OutOfFuel => OutOfFuel)
       case Err(e) => Err(e)
       case OutOfFuel => OutOfFuel)
    case For(x, it, body) =>
      (match EvalIter(it, st.frames)
       case Ok(bounds) =>
         var st1 := st.(notes := st.notes + if bounds.Differ() then {IterationsDiffer} else {});
         ExecFor(x, bounds.Values(), body, st1, fuel)
       case Err(e) => Err(e)
       case OutOfFuel => OutOfFuel)
  }

  function ExecBlock(b: seq<Stmt>, st: State, fuel: nat): (r: Result<State>)
    requires st.frames != []
    ensures r.Ok? ==> |r.value.frames| == |st.frames|
    decreases fuel, b, 1
  {
    if b == [] then Ok(st)
    else
      match Exec(b[0], st, fuel)
      case Ok(st1) => ExecBlock(b[1..], st1, fuel)
      case Err(e) => Err(e)
      case OutOfFuel => OutOfFuel
  }

  /** A block runs in a frame of its own, which goes away at its end. */
  function ExecScope(bindings: Frame, b: seq<Stmt>, st: State, fuel: nat): (r: Result<State>)
    requires st.frames != []
    ensures r.Ok? ==> |r.value.frames| == |st.frames|
    decreases fuel, b, 2
  {
    match ExecBlock(b, st.(frames := st.frames + [bindings]), fuel)
    case Ok(st1) => Ok(st1.(frames := st1.frames[..|st1.frames| - 1]))
    case Err(e) => Err(e)
    case OutOfFuel => OutOfFuel
  }

  function ExecFor(x: Name, vs: seq<int64>, body: seq<Stmt>, st: State, fuel: nat): (r: Result<State>)
    requires st.frames != []
    ensures r.Ok? ==> |r.value.frames| == |st.frames|
    decreases fuel, body, 3, |vs|
  {
    if vs == [] then Ok(st)
    else
      match ExecScope(map[x := vs[0]], body, st, fuel)
      case Ok(st1) => ExecFor(x, vs[1..], body, st1, fuel)
      case Err(e) => Err(e)
      case OutOfFuel => OutOfFuel
  }

  const Start := State([map[], map[]], {}, [], {})

  /** `run_main`: one frame of the interpreter and one of the function. */
  function RunMain(program: seq<Stmt>, fuel: nat): Result<State> {
    ExecBlock(program, Start, fuel)
  }
}
