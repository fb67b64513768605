/** The register machine: the instructions of evaluate_block the code generator's control flow uses. */
module Vm {
  import opened Tree

  const NO_VAR: int := -1

  datatype Instr =
    | LoadNil(v: int)
    | LoadTrue(v: int)
    | LoadFalse(v: int)
    | LoadFixnum(v: int, n: int)
    | SelfOp(v: int)
    | Move(dst: int, src: int)
    | Branch(pos: int)
    | BranchIf(v: int, pos: int)
    | BranchUnless(v: int, pos: int)
    | Call(v: int, obj: int, name: string, argc: nat, argv: int)
    | ReturnOp(v: int)
    | UnwindBreak(v: int)

  datatype Frame =
    | Running(ip: int, vars: seq<Value>, trace: seq<Event>)
    | Finished(value: Value, vars: seq<Value>, trace: seq<Event>)
    | Stuck

  datatype Machine = Machine(world: Oracle, self: Value, code: seq<Instr>)

  predicate IsRegister(f: Frame, v: int)
    requires f.Running?
  {
    0 <= v < |f.vars|
  }

  function Put(f: Frame, v: int, x: Value): Frame
    requires f.Running?
  {
    if IsRegister(f, v) then Running(f.ip + 1, f.vars[v := x], f.trace) else Stuck
  }

  /** One instruction. */
  function Step(m: Machine, f: Frame): Frame {
    if !f.Running? then f
    else if !(0 <= f.ip < |m.code|) then Stuck
    else
      match m.code[f.ip]
      case LoadNil(v) => Put(f, v, VNil)
      case LoadTrue(v) => Put(f, v, VTrue)
      case LoadFalse(v) => Put(f, v, VFalse)
      case LoadFixnum(v, n) => Put(f, v, VFixnum(n))
      case SelfOp(v) => Put(f, v, m.self)
      case Move(dst, src) => if IsRegister(f, src) then Put(f, dst, f.vars[src]) else Stuck
      case Branch(pos) => f.(ip := pos)
      case BranchIf(v, pos) =>
        if !IsRegister(f, v) then Stuck else if Test(f.vars[v]) then f.(ip := pos) else f.(ip := f.ip + 1)
      case BranchUnless(v, pos) =>
        if !IsRegister(f, v) then Stuck else if !Test(f.vars[v]) then f.(ip := pos) else f.(ip := f.ip + 1)
      case Call(v, obj, name, argc, argv) =>
        if !IsRegister(f, obj) || (argc > 0 && !(0 <= argv && argv + argc <= |f.vars|)) then Stuck
        else
          var args := if argc > 0 then f.vars[argv..argv + argc] else [];
          var trace := f.trace + [Event(f.vars[obj], name, args)];
          if v == NO_VAR then Running(f.ip + 1, f.vars, trace)
          else if IsRegister(f, v) then Running(f.ip + 1, f.vars[v := m.world(trace)], trace)
          else Stuck
      // the frame of the closure's parent takes over: outside of this machine
      case UnwindBreak(_) => Stuck
      case ReturnOp(v) => if IsRegister(f, v) then Finished(f.vars[v], f.vars, f.trace) else Stuck
  }

  function Steps(m: Machine, f: Frame, n: nat): Frame
    decreases n
  {
    if n == 0 then f else Steps(m, Step(m, f), n - 1)
  }

  lemma {:induction false} StepsAdd(m: Machine, f: Frame, a: nat, b: nat)
    ensures Steps(m, f, a + b) == Steps(m, Steps(m, f, a), b)
    decreases a
  {
    if a > 0 {
      StepsAdd(m, Step(m, f), a - 1, b);
    }
  }

  lemma {:induction false} FinishedStays(m: Machine, f: Frame, n: nat)
    requires !f.Running?
    ensures Steps(m, f, n) == f
    decreases n
  {
    if n > 0 {
      FinishedStays(m, Step(m, f), n - 1);
    }
  }

  /** evaluate_block, for as many instructions as allowed. */
  method EvaluateBlock(m: Machine, start: Frame, limit: nat) returns (f: Frame)
    ensures f == Steps(m, start, limit)
  {
    f := start;
    var n := 0;
    while n < limit && f.Running?
      invariant 0 <= n <= limit && Steps(m, f, limit - n) == Steps(m, start, limit)
    {
      f := Step(m, f);
      n := n + 1;
    }
    if n < limit {
      FinishedStays(m, f, limit - n);
    }
  }
}
