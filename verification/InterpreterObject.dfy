/** The interpreter as it is written: an object whose frames, constants and output change
    step by step. Each method is tied to the function of module Interp. */
module InterpreterObject {
  import opened Int64
  import opened Ast
  import I = Interp

  class Interpreter {
    var frames: seq<I.Frame>
    var constVars: set<Name>
    var output: seq<int64>
    var notes: set<I.Note>

    function State(): I.State
      reads this
    {
      I.State(frames, constVars, output, notes)
    }

    constructor ()
      ensures State() == I.Start
    {
      frames, constVars, output, notes := [map[], map[]], {}, [], {};
    }

    method PushFrame(top: I.Frame)
      modifies this`frames
      ensures frames == old(frames) + [top]
    {
      frames := frames + [top];
    }

    method PopFrame()
      requires frames != []
      modifies this`frames
      ensures frames == old(frames)[..|old(frames)| - 1]
    {
      frames := frames[..|frames| - 1];
    }

    method GetVar(x: Name) returns (r: I.Result<int64>)
      ensures r == I.GetVar(frames, x)
    {
      var i := |frames|;
      assert frames[..i] == frames;
      while i > 0
        invariant 0 <= i <= |frames|
        invariant I.GetVar(frames, x) == I.GetVar(frames[..i], x)
      {
        assert frames[..i][..i - 1] == frames[..i - 1];
        i := i - 1;
        if x in frames[i] {
          return I.Ok(frames[i][x]);
        }
      }
      return I.Err(I.NotFound(x));
    }

    method SetVar(x: Name, v: int64)
      requires frames != []
      modifies this`frames
      ensures frames == I.SetVar(old(frames), x, v)
    {
      var i := |frames|;
      while i > 0
        invariant 0 <= i <= |frames|
        invariant forall j :: i <= j < |frames| ==> x !in frames[j]
      {
        i := i - 1;
        if x in frames[i] {
          UpdateAt(frames, x, v, i);
          frames := frames[i := I.Put(frames[i], x, v)];
          return;
        }
      }
      frames := I.Declare(frames, x, v);
    }

    /** Operators read their operands and change nothing. */
    method EvalExpr(e: Expr) returns (r: I.Result<int64>)
      ensures r == I.EvalExpr(e, frames)
      decreases e
    {
      match e
      case LitInt(n) => r := I.Ok(n);
      case Ident(x) => r := GetVar(x);
      case UnOp(op, inner) =>
        r := EvalExpr(inner);
        if r.Ok? {
          match op {
            case Neg => r := I.Checked(0 - r.value);
            case BitNot => r := I.Ok(-1 - r.value);
          }
        }
      case BinOp(op, l, right) =>
        r := EvalExpr(right);
        if r.Ok? {
          var b := r.value;
          r := EvalExpr(l);
          if r.Ok? { r := I.EvalBinop(op, r.value, b); }
        }
    }

    method EvalCond(c: Cond) returns (r: I.Result<I.Truth>)
      ensures r == I.EvalCond(c, frames)
      decreases c
    {
      match c
      case LitBool(b) => r := I.Ok(I.Truth(b, {}));
      case Not(d) =>
        r := EvalCond(d);
        if r.Ok? { r := I.Ok(I.Truth(!r.value.b, r.value.notes)); }
      case Cmp(op, l, right) =>
        var b := EvalExpr(right);
        if !b.Ok? { return Failure(b); }
        var a := EvalExpr(l);
        if !a.Ok? { return Failure(a); }
        var guard := I.Conflated(op, a.value, b.value);
        r := I.Ok(I.Truth(I.CompareF64(op, a.value, b.value), if guard then {I.RoundedCompare} else {}));
    }

    method EvalIter(it: Iter) returns (r: I.Result<I.Bounds>)
      ensures r == I.EvalIter(it, frames)
    {
      match it
      case Upto(e) =>
        var n := EvalExpr(e);
        if !n.Ok? { return Failure(n); }
        r := I.Ok(I.Count(n.value));
      case Range(s, e) =>
        var a := EvalExpr(s);
        if !a.Ok? { return Failure(a); }
        var b := EvalExpr(e);
        if !b.Ok? { return Failure(b); }
        var lo: int, hi: int := a.value, b.value;
        r := if Fits(if lo <= hi then hi + 1 else hi - 1) then I.Ok(I.FromTo(a.value, b.value)) else I.Err(I.Overflow);
    }

    /** The outcome of a statement: the new state if there is one. */
    predicate Became(r: I.Result<()>, spec: I.Result<I.State>)
      reads this
    {
      match spec
      case Ok(st) => r == I.Ok(()) && State() == st
      case Err(e) => r == I.Err(e)
      case OutOfFuel => r == I.OutOfFuel
    }

    method ExecStmt(s: Stmt, fuel: nat) returns (r: I.Result<()>)
      requires frames != []
      modifies this
      ensures Became(r, I.Exec(s, old(State()), fuel))
      decreases fuel, s, 0
    {
      match s
      case Decl(x, e, isConst) =>
        var v := EvalExpr(e);
        if !v.Ok? { return Failure(v); }
        if isConst { constVars := constVars + {x}; }
        frames := I.Declare(frames, x, v.value);
        r := I.Ok(());
      case Assign(x, e) =>
        if x in constVars { return I.Err(I.ConstAssign(x)); }
        var v := EvalExpr(e);
        if !v.Ok? { return Failure(v); }
        SetVar(x, v.value);
        r := I.Ok(());
      case Print(e) =>
        var v := EvalExpr(e);
        if !v.Ok? { return Failure(v); }
        output := output + [v.value];
        r := I.Ok(());
      case If(c, thn, els) =>
        var t := EvalCond(c);
        if !t.Ok? { return Failure(t); }
        notes := notes + t.value.notes;
        r := ExecScope(map[], if t.value.b then thn else els, fuel);
      case While(c, body) =>
        r := ExecWhile(c, body, fuel);
      case For(x, it, body) =>
        r := ExecFor(x, it, body, fuel);
    }

    function Failure<T, U>(v: I.Result<T>): I.Result<U>
      requires !v.Ok?
    {
      match v
      case Err(e) => I.Err(e)
      case OutOfFuel => I.OutOfFuel
    }

    method ExecBlock(b: seq<Stmt>, fuel: nat) returns (r: I.Result<()>)
      requires frames != []
      modifies this
      ensures Became(r, I.ExecBlock(b, old(State()), fuel))
      decreases fuel, b, 1
    {
      var i := 0;
      assert b[0..] == b;
      while i < |b|
        invariant 0 <= i <= |b| && frames != []
        invariant I.ExecBlock(b, old(State()), fuel) == I.ExecBlock(b[i..], State(), fuel)
      {
        assert b[i..][0] == b[i] && b[i..][1..] == b[i + 1..];
        label Before:
        r := ExecStmt(b[i], fuel);
        if !r.Ok? { return; }
        i := i + 1;
      }
      assert b[i..] == [];
      r := I.Ok(());
    }

    method ExecScope(top: I.Frame, b: seq<Stmt>, fuel: nat) returns (r: I.Result<()>)
      requires frames != []
      modifies this
      ensures Became(r, I.ExecScope(top, b, old(State()), fuel))
      decreases fuel, b, 2
    {
      PushFrame(top);
      r := ExecBlock(b, fuel);
      if r.Ok? { PopFrame(); }
    }

    method ExecWhile(c: Cond, body: seq<Stmt>, fuel: nat) returns (r: I.Result<()>)
      requires frames != []
      modifies this
      ensures Became(r, I.Exec(While(c, body), old(State()), fuel))
      decreases fuel, body, 3
    {
      var left: nat := fuel;
      while true
        invariant frames != [] && 0 <= left <= fuel
        invariant I.Exec(While(c, body), old(State()), fuel) == I.Exec(While(c, body), State(), left)
        decreases left
      {
        var t := EvalCond(c);
        if !t.Ok? { return Failure(t); }
        notes := notes + t.value.notes;
        if !t.value.b { return I.Ok(()); }
        if left == 0 { return I.OutOfFuel; }
        left := left - 1;
        r := ExecScope(map[], body, left);
        if !r.Ok? { return; }
      }
    }

    method ExecFor(x: Name, it: Iter, body: seq<Stmt>, fuel: nat) returns (r: I.Result<()>)
      requires frames != []
      modifies this
      ensures Became(r, I.Exec(For(x, it, body), old(State()), fuel))
      decreases fuel, body, 4
    {
      var bounds := EvalIter(it);
      if !bounds.Ok? { return Failure(bounds); }
      notes := notes + if bounds.value.Differ() then {I.IterationsDiffer} else {};
      match bounds.value
      case Count(n) => r := ExecUp(x, 0, n - 1, body, fuel);
      case FromTo(a, b) =>
        if a <= b { r := ExecUp(x, a, b, body, fuel); } else { r := ExecDown(x, a, b, body, fuel); }
    }

    method ExecUp(x: Name, lo: int, hi: int, body: seq<Stmt>, fuel: nat) returns (r: I.Result<()>)
      requires frames != [] && (lo <= hi ==> Fits(lo) && Fits(hi))
      modifies this
      ensures Became(r, I.ExecFor(x, I.Ascend(lo, hi), body, old(State()), fuel))
      decreases fuel, body, 3
    {
      var i := lo;
      while i <= hi
        invariant lo <= i && frames != []
        invariant I.ExecFor(x, I.Ascend(lo, hi), body, old(State()), fuel) == I.ExecFor(x, I.Ascend(i, hi), body, State(), fuel)
        decreases hi - i
      {
        assert I.Ascend(i, hi)[0] == i && I.Ascend(i, hi)[1..] == I.Ascend(i + 1, hi);
        r := ExecScope(map[x := i], body, fuel);
        if !r.Ok? { return; }
        i := i + 1;
      }
      r := I.Ok(());
    }

    method ExecDown(x: Name, hi: int, lo: int, body: seq<Stmt>, fuel: nat) returns (r: I.Result<()>)
      requires frames != [] && (lo <= hi ==> Fits(lo) && Fits(hi))
      modifies this
      ensures Became(r, I.ExecFor(x, I.Descend(hi, lo), body, old(State()), fuel))
      decreases fuel, body, 3
    {
      var i := hi;
      while lo <= i
        invariant i <= hi && frames != []
        invariant I.ExecFor(x, I.Descend(hi, lo), body, old(State()), fuel) == I.ExecFor(x, I.Descend(i, lo), body, State(), fuel)
        decreases i - lo
      {
        assert I.Descend(i, lo)[0] == i && I.Descend(i, lo)[1..] == I.Descend(i - 1, lo);
        r := ExecScope(map[x := i], body, fuel);
        if !r.Ok? { return; }
        i := i - 1;
      }
      r := I.Ok(());
    }
  }

  /** The update hits the highest frame that holds the name. */
  lemma {:induction false} UpdateAt(frames: seq<I.Frame>, x: Name, v: int64, i: nat)
    requires i < |frames| && x in frames[i] && forall j :: i < j < |frames| ==> x !in frames[j]
    ensures I.Update(frames, x, v) == frames[i := I.Put(frames[i], x, v)]
  {
    var n := |frames| - 1;
    if i < n {
      UpdateAt(frames[..n], x, v, i);
      assert frames[..n][i := I.Put(frames[i], x, v)] + [frames[n]] == frames[i := I.Put(frames[i], x, v)];
    }
  }
}
