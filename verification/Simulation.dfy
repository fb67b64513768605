/** The generated code does what the tree means: a run of the machine through the code of a node
    follows the evaluation of that node. */
module Simulation {
  import opened Tree
  import opened Vm
  import opened CodeGen

  predicate At(code: seq<Instr>, base: nat, ops: seq<Instr>) {
    base + |ops| <= |code| && code[base..base + |ops|] == ops
  }

  lemma AtSplit(code: seq<Instr>, base: nat, a: seq<Instr>, b: seq<Instr>)
    requires At(code, base, a + b)
    ensures At(code, base, a) && At(code, base + |a|, b)
  {
    assert (a + b)[..|a|] == a && (a + b)[|a|..] == b;
    assert code[base..base + |a| + |b|][..|a|] == code[base..base + |a|];
    assert code[base..base + |a| + |b|][|a|..] == code[base + |a|..base + |a| + |b|];
  }

  lemma AtFirst(code: seq<Instr>, base: nat, op: Instr, rest: seq<Instr>)
    requires At(code, base, [op] + rest)
    ensures base < |code| && code[base] == op && At(code, base + 1, rest)
  {
    AtSplit(code, base, [op], rest);
    assert code[base..base + 1][0] == code[base];
  }

  lemma AtEach(code: seq<Instr>, base: nat, ops: seq<Instr>)
    requires At(code, base, ops)
    ensures forall k {:trigger ops[k]} :: 0 <= k < |ops| ==> code[base + k] == ops[k]
  {
    forall k {:trigger ops[k]} | 0 <= k < |ops|
      ensures code[base + k] == ops[k]
    {
      assert code[base..base + |ops|][k] == code[base + k];
    }
  }

  lemma AtFour(code: seq<Instr>, base: nat, a: Instr, b: Instr, c: Instr, d: Instr)
    requires At(code, base, [a, b, c, d])
    ensures base + 4 <= |code|
    ensures code[base] == a && code[base + 1] == b && code[base + 2] == c && code[base + 3] == d
  {
    AtEach(code, base, [a, b, c, d]);
  }

  lemma AtOnly(code: seq<Instr>, base: nat, op: Instr)
    requires At(code, base, [op])
    ensures base < |code| && code[base] == op
  {
    assert code[base..base + 1][0] == code[base];
  }

  lemma OneMore(m: Machine, f: Frame, n: nat)
    ensures Steps(m, f, n + 1) == Step(m, Steps(m, f, n))
  {
    StepsAdd(m, f, n, 1);
    assert Steps(m, Steps(m, f, n), 1) == Steps(m, Step(m, Steps(m, f, n)), 0);
  }

  lemma NoStep(m: Machine, f: Frame)
    ensures Steps(m, f, 0) == f
  {
  }

  lemma RunLoad(m: Machine, f: Frame, n: nat, v: int, x: Value)
    requires var g := Steps(m, f, n);
             g.Running? && 0 <= g.ip < |m.code| && 0 <= v < |g.vars|
             && ((m.code[g.ip] == LoadNil(v) && x == VNil) || (m.code[g.ip] == LoadTrue(v) && x == VTrue)
                 || (m.code[g.ip] == LoadFalse(v) && x == VFalse))
    ensures var g := Steps(m, f, n);
            Steps(m, f, n + 1) == Running(g.ip + 1, g.vars[v := x], g.trace)
  {
    OneMore(m, f, n);
  }

  lemma RunMove(m: Machine, f: Frame, n: nat, dst: int, src: int)
    requires var g := Steps(m, f, n);
             g.Running? && 0 <= g.ip < |m.code| && m.code[g.ip] == Move(dst, src) && 0 <= src < |g.vars|
               && 0 <= dst < |g.vars|
    ensures var g := Steps(m, f, n);
            Steps(m, f, n + 1) == Running(g.ip + 1, g.vars[dst := g.vars[src]], g.trace)
  {
    OneMore(m, f, n);
  }

  lemma RunBranch(m: Machine, f: Frame, n: nat, pos: int)
    requires var g := Steps(m, f, n);
             g.Running? && 0 <= g.ip < |m.code| && m.code[g.ip] == Branch(pos)
    ensures var g := Steps(m, f, n);
            Steps(m, f, n + 1) == g.(ip := pos)
  {
    OneMore(m, f, n);
  }

  lemma RunBranchOn(m: Machine, f: Frame, n: nat, b: bool, v: int, pos: int)
    requires var g := Steps(m, f, n);
             g.Running? && 0 <= g.ip < |m.code| && m.code[g.ip] == BranchOn(b, v, pos) && 0 <= v < |g.vars|
    ensures var g := Steps(m, f, n);
            Steps(m, f, n + 1) == g.(ip := if Test(g.vars[v]) == b then pos else g.ip + 1)
  {
    OneMore(m, f, n);
  }

  lemma RunCall(m: Machine, f: Frame, n: nat, v: int, obj: int, name: string, argc: nat, argv: int)
    requires var g := Steps(m, f, n);
             g.Running? && 0 <= g.ip < |m.code| && m.code[g.ip] == Call(v, obj, name, argc, argv) && 0 <= obj < |g.vars|
             && (argc > 0 ==> 0 <= argv && argv + argc <= |g.vars|) && (v == NO_VAR || 0 <= v < |g.vars|)
    ensures var g := Steps(m, f, n);
            var args := if argc > 0 then g.vars[argv..argv + argc] else [];
            var trace := g.trace + [Event(g.vars[obj], name, args)];
            Steps(m, f, n + 1) == Running(g.ip + 1, if v == NO_VAR then g.vars else g.vars[v := m.world(trace)], trace)
  {
    OneMore(m, f, n);
  }

  // ----- where a run stands after the code of a node -----------------------------------------

  /** Locals and trace as the evaluation left them. */
  predicate Agrees(locals: nat, f: Frame, g: Frame, st: State) {
    f.Running? && g.Running? && |g.vars| == |f.vars| && locals <= |g.vars| && g.vars[..locals] == st.locals
      && g.trace == st.trace
  }

  /** Registers below vars that are neither locals nor in [lo, hi) are untouched; the register of the
      method's result, which follows the locals, only when the method is not being left. */
  predicate Kept(locals: nat, lo: int, hi: int, vars: nat, leaving: bool, f: Frame, g: Frame) {
    f.Running? && g.Running? && |g.vars| == |f.vars| && vars <= |f.vars| &&
    forall r {:trigger g.vars[r]} ::
      locals <= r < vars && !(lo <= r < hi) && !(leaving && r == locals) ==> g.vars[r] == f.vars[r]
  }

  predicate Leaving(out: Outcome, env: Env) {
    out.Returned? || (out.Nexted? && !InLoop(env))
  }

  predicate Jumped(locals: nat, env: Env, g: Frame, out: Outcome)
    requires g.Running?
  {
    (Leaving(out, env) ==> g.ip == env.epilog && locals < |g.vars| && g.vars[locals] == out.value) &&
    (out.Nexted? && InLoop(env) ==> g.ip == env.start) &&
    (out.Broke? ==> InLoop(env) && g.ip == env.end)
  }

  predicate Landed(locals: nat, v: int, end: int, vars: nat, env: Env, f: Frame, g: Frame, out: Outcome, st: State) {
    f.Running? && g.Running? &&
    (!out.Exhausted? ==>
       && Agrees(locals, f, g, st)
       && Kept(locals, v, v + 1, vars, Leaving(out, env), f, g)
       && (out.Normal? ==> g.ip == end && (v != NO_VAR ==> 0 <= v < |g.vars| && g.vars[v] == out.value))
       && (!out.Normal? ==> Jumped(locals, env, g, out)))
  }

  predicate ArgumentsLanded(locals: nat, v: nat, end: int, count: nat, vars: nat, env: Env, f: Frame, g: Frame,
                            args: Arguments, st: State) {
    f.Running? && g.Running? &&
    match args
    case Arguments(values) =>
      && Agrees(locals, f, g, st)
      && Kept(locals, v, v + count, vars, false, f, g)
      && g.ip == end && |values| == count && v + count <= |g.vars| && g.vars[v..v + count] == values
    case Left(out) =>
      && !out.Normal?
      && (!out.Exhausted? ==>
            && Agrees(locals, f, g, st)
            && Kept(locals, v, v + count, vars, Leaving(out, env), f, g)
            && Jumped(locals, env, g, out))
  }

  function StateOf(locals: nat, f: Frame): State {
    if f.Running? && locals <= |f.vars| then State(f.vars[..locals], f.trace) else State([], [])
  }

  predicate EnvOk(locals: nat, env: Env) {
    env.returnVar == locals
  }

  predicate Enough(locals: nat, vars: nat, top: nat, f: Frame) {
    f.Running? && locals < vars <= top <= |f.vars|
  }

  predicate Target(locals: nat, v: int, vars: nat) {
    v == NO_VAR || locals <= v < vars
  }

  predicate Ready(m: Machine, locals: nat, node: Node, v: int, base: nat, vars: nat, env: Env, f: Frame) {
    var c := Emit(node, v, base, vars, env);
    && WellFormed(node, locals, InLoop(env)) && EnvOk(locals, env) && Target(locals, v, vars)
    && At(m.code, base, c.ops) && Enough(locals, vars, c.vars, f) && f.ip == base
  }

  predicate Simulated(m: Machine, locals: nat, rounds: nat, node: Node, v: int, base: nat, vars: nat, env: Env,
                      f: Frame, n: nat) {
    var c := Emit(node, v, base, vars, env);
    var (out, st) := Eval(m.world, m.self, rounds, node, StateOf(locals, f));
    && Landed(locals, v, base + |c.ops|, vars, env, f, Steps(m, f, n), out, st)
    && (out.Exhausted? ==> n >= rounds)
  }

  /** A part of a node's code ran first and kept what the node has to keep. */
  lemma Onward(locals: nat, v: int, end: int, vars: nat, env: Env, f: Frame, g: Frame, v1: int, vars1: nat, h: Frame,
               v2: int, vars2: nat, end2: int, out: Outcome, st: State)
    requires Kept(locals, v1, v1 + 1, vars1, false, f, g) && Landed(locals, v2, end2, vars2, env, g, h, out, st)
    requires vars <= vars1 && vars <= vars2 && (v1 == v || v1 >= vars) && (v2 == v || v2 >= vars)
    requires out.Normal? ==> v2 == v && end2 == end
    ensures Landed(locals, v, end, vars, env, f, h, out, st)
  {
  }

  lemma Still(locals: nat, v: int, vars: nat, f: Frame)
    requires f.Running? && vars <= |f.vars|
    ensures Kept(locals, v, v + 1, vars, false, f, f)
  {
  }

  lemma Unfold(world: Oracle, self: Value, rounds: nat, node: Node, st: State, v: int, base: nat, vars: nat, env: Env)
    ensures node.AssignmentNode? ==>
      Emit(node, v, base, vars, env) == ConvertAssignment(node, v, base, vars, env)
      && Eval(world, self, rounds, node, st) == EvalAssignment(world, self, rounds, node, st)
    ensures node.BooleanNotNode? ==>
      Emit(node, v, base, vars, env) == ConvertBooleanNot(node, v, base, vars, env)
      && Eval(world, self, rounds, node, st) == EvalBooleanNot(world, self, rounds, node, st)
    ensures node.BooleanOpNode? ==>
      Emit(node, v, base, vars, env) == ConvertBooleanOp(node, v, base, vars, env)
      && Eval(world, self, rounds, node, st) == EvalBooleanOp(world, self, rounds, node, st)
    ensures node.BinaryOpNode? ==>
      Emit(node, v, base, vars, env) == ConvertBinaryOp(node, v, base, vars, env)
      && Eval(world, self, rounds, node, st) == EvalBinaryOp(world, self, rounds, node, st)
    ensures node.CallNode? ==>
      Emit(node, v, base, vars, env) == ConvertCall(node, v, base, vars, env)
      && Eval(world, self, rounds, node, st) == EvalCall(world, self, rounds, node, st)
    ensures node.IfNode? ==>
      Emit(node, v, base, vars, env) == ConvertIf(node, v, base, vars, env)
      && Eval(world, self, rounds, node, st) == EvalIf(world, self, rounds, node, st)
    ensures node.LoopNode? ==>
      Emit(node, v, base, vars, env) == ConvertLoop(node, v, base, vars, env)
      && Eval(world, self, rounds, node, st) == EvalLoop(world, self, rounds, node, st)
    ensures node.GroupNode? ==>
      Emit(node, v, base, vars, env) == ConvertGroup(node, v, base, vars, env)
      && Eval(world, self, rounds, node, st) == EvalGroup(world, self, rounds, node, st)
    ensures node.ReturnNode? ==>
      Emit(node, v, base, vars, env) == ConvertReturn(node, v, base, vars, env)
      && Eval(world, self, rounds, node, st) == EvalReturn(world, self, rounds, node, st)
    ensures node.BreakNode? ==>
      Emit(node, v, base, vars, env) == ConvertBreak(node, v, base, vars, env)
      && Eval(world, self, rounds, node, st) == EvalBreak(world, self, rounds, node, st)
    ensures node.NextNode? ==>
      Emit(node, v, base, vars, env) == ConvertNext(node, v, base, vars, env)
      && Eval(world, self, rounds, node, st) == EvalNext(world, self, rounds, node, st)
  {
    hide Size;
    hide ConvertAssignment, EvalAssignment;
    hide ConvertBooleanNot, EvalBooleanNot;
    hide ConvertBooleanOp, EvalBooleanOp;
    hide ConvertBinaryOp, EvalBinaryOp;
    hide ConvertCall, EvalCall;
    hide ConvertIf, EvalIf;
    hide ConvertLoop, EvalLoop;
    hide ConvertGroup, EvalGroup;
    hide ConvertReturn, EvalReturn;
    hide ConvertBreak, EvalBreak;
    hide ConvertNext, EvalNext;
  }

  // ----- one construct at a time ---------------------------------------------------------------

  lemma RunLeaf(m: Machine, f: Frame, leaf: Leaf, v: int, locals: nat)
    requires f.Running? && 0 <= f.ip < |m.code| && m.code[f.ip] == LeafCode(leaf, v) && 0 <= v < |f.vars|
      && locals <= |f.vars|
    requires leaf.VariableLeaf? ==> leaf.loc < locals
    ensures Steps(m, f, 1) == Running(f.ip + 1, f.vars[v := LeafValue(m.self, leaf, StateOf(locals, f))], f.trace)
  {
    OneMore(m, f, 0);
  }

  lemma EvalLeaf(m: Machine, rounds: nat, node: Node, st: State)
    requires node.LeafNode?
    ensures Eval(m.world, m.self, rounds, node, st) == (Normal(LeafValue(m.self, node.leaf, st)), st)
  {
  }

  lemma EmitLeaf(node: Node, v: int, base: nat, vars: nat, env: Env)
    requires node.LeafNode?
    ensures Emit(node, v, base, vars, env) == ConvertLeaf(node, v, vars, env)
  {
  }

  lemma SimulateLeaf(m: Machine, locals: nat, rounds: nat, node: Node, v: int, base: nat, vars: nat, env: Env, f: Frame)
    returns (n: nat)
    requires node.LeafNode? && Ready(m, locals, node, v, base, vars, env, f)
    ensures Simulated(m, locals, rounds, node, v, base, vars, env, f, n)
  {
    hide Eval, Emit, Size, Step, Steps, At, LeafCode, LeafValue;
    EvalLeaf(m, rounds, node, StateOf(locals, f));
    EmitLeaf(node, v, base, vars, env);
    if v == NO_VAR {
      n := 0;
      NoStep(m, f);
      Still(locals, v, vars, f);
    } else {
      n := 1;
      AtOnly(m.code, base, LeafCode(node.leaf, v));
      RunLeaf(m, f, node.leaf, v, locals);
    }
  }

  lemma SimulateAssignment(m: Machine, locals: nat, rounds: nat, node: Node, v: int, base: nat, vars: nat, env: Env,
                           f: Frame) returns (n: nat)
    requires node.AssignmentNode? && Ready(m, locals, node, v, base, vars, env, f)
    ensures Simulated(m, locals, rounds, node, v, base, vars, env, f, n)
    decreases rounds, node, 0
  {
    hide Eval, Emit, Size, Step, Steps, At;
    Unfold(m.world, m.self, rounds, node, StateOf(locals, f), v, base, vars, env);
    var t := Temp(v, vars);
    var c := Emit(node.first, t, base, Taken(v, vars), env);
    AtSplit(m.code, base, c.ops, [Move(node.loc, t)] + If(v != NO_VAR, Move(v, t)));
    n := Simulate(m, locals, rounds, node.first, t, base, Taken(v, vars), env, f);
    var (out, st) := Eval(m.world, m.self, rounds, node.first, StateOf(locals, f));
    if out.Normal? {
      AtFirst(m.code, base + |c.ops|, Move(node.loc, t), If(v != NO_VAR, Move(v, t)));
      RunMove(m, f, n, node.loc, t);
      n := n + 1;
      if v != NO_VAR {
        AtOnly(m.code, base + |c.ops| + 1, Move(v, t));
        RunMove(m, f, n, v, t);
        n := n + 1;
      }
    }
  }

  lemma SimulateBooleanNot(m: Machine, locals: nat, rounds: nat, node: Node, v: int, base: nat, vars: nat, env: Env,
                           f: Frame) returns (n: nat)
    requires node.BooleanNotNode? && Ready(m, locals, node, v, base, vars, env, f)
    ensures Simulated(m, locals, rounds, node, v, base, vars, env, f, n)
    decreases rounds, node, 0
  {
    hide Eval, Emit, Size, Step, Steps, At;
    Unfold(m.world, m.self, rounds, node, StateOf(locals, f), v, base, vars, env);
    var c := Emit(node.first, v, base, vars, env);
    var p := base + |c.ops|;
    if v == NO_VAR {
      assert c.ops + [] == c.ops;
      n := Simulate(m, locals, rounds, node.first, v, base, vars, env, f);
    } else {
      AtSplit(m.code, base, c.ops, [BranchIf(v, p + 3), LoadTrue(v), Branch(p + 4), LoadFalse(v)]);
      n := Simulate(m, locals, rounds, node.first, v, base, vars, env, f);
      var (out, st) := Eval(m.world, m.self, rounds, node.first, StateOf(locals, f));
      if out.Normal? {
        AtFour(m.code, p, BranchIf(v, p + 3), LoadTrue(v), Branch(p + 4), LoadFalse(v));
        assert m.code[p] == BranchOn(true, v, p + 3);
        RunBranchOn(m, f, n, true, v, p + 3);
        n := n + 1;
        if Test(out.value) {
          RunLoad(m, f, n, v, VFalse);
          n := n + 1;
        } else {
          RunLoad(m, f, n, v, VTrue);
          RunBranch(m, f, n + 1, p + 4);
          n := n + 2;
        }
      }
    }
  }

  lemma SimulateBooleanOp(m: Machine, locals: nat, rounds: nat, node: Node, v: int, base: nat, vars: nat, env: Env,
                          f: Frame) returns (n: nat)
    requires node.BooleanOpNode? && Ready(m, locals, node, v, base, vars, env, f)
    ensures Simulated(m, locals, rounds, node, v, base, vars, env, f, n)
    decreases rounds, node, 0
  {
    hide Eval, Emit, Size, Step, Steps, At;
    Unfold(m.world, m.self, rounds, node, StateOf(locals, f), v, base, vars, env);
    var t := Temp(v, vars);
    var c1 := Emit(node.first, t, base, Taken(v, vars), env);
    var p := base + |c1.ops|;
    var c2 := Emit(node.second, v, p + 1, c1.vars, env);
    AtSplit(m.code, base, c1.ops, [BranchOn(node.isOr, t, p + 1 + |c2.ops|)] + c2.ops);
    n := Simulate(m, locals, rounds, node.first, t, base, Taken(v, vars), env, f);
    var (out, st) := Eval(m.world, m.self, rounds, node.first, StateOf(locals, f));
    if out.Normal? {
      AtFirst(m.code, p, BranchOn(node.isOr, t, p + 1 + |c2.ops|), c2.ops);
      RunBranchOn(m, f, n, node.isOr, t, p + 1 + |c2.ops|);
      n := n + 1;
      if Test(out.value) != node.isOr {
        var g := Steps(m, f, n);
        var k := Simulate(m, locals, rounds, node.second, v, p + 1, c1.vars, env, g);
        var (out2, st2) := Eval(m.world, m.self, rounds, node.second, st);
        Onward(locals, v, p + 1 + |c2.ops|, vars, env, f, g, t, Taken(v, vars), Steps(m, g, k), v, c1.vars,
               p + 1 + |c2.ops|, out2, st2);
        StepsAdd(m, f, n, k);
        n := n + k;
      }
    }
  }

  lemma KeptTwice(locals: nat, v: int, vars: nat, f: Frame, g: Frame, lo: int, hi: int, vars1: nat, h: Frame, v2: int,
                  vars2: nat)
    requires Kept(locals, lo, hi, vars1, false, f, g) && Kept(locals, v2, v2 + 1, vars2, false, g, h)
    requires vars <= vars1 && vars <= vars2 && (lo >= vars || (lo == v && hi == v + 1)) && (v2 == v || v2 >= vars)
    ensures Kept(locals, v, v + 1, vars, false, f, h)
  {
  }

  lemma KeptValues(locals: nat, lo: nat, hi: nat, values: seq<Value>, g: Frame, h: Frame, v: int, vars: nat)
    requires g.Running? && lo <= hi <= |g.vars| && g.vars[lo..hi] == values && Kept(locals, v, v + 1, vars, false, g, h)
    requires locals <= lo && hi <= vars && (v < lo || v >= hi)
    ensures h.vars[lo..hi] == values
  {
    forall r | lo <= r < hi
      ensures h.vars[r] == values[r - lo]
    {
      assert g.vars[r] == g.vars[lo..hi][r - lo];
    }
  }

  lemma AfterCall(m: Machine, locals: nat, v: int, vars: nat, end: nat, env: Env, f: Frame, n: nat, obj: Value, t: int,
                  name: string, argc: nat, argv: int, args: seq<Value>, st: State)
    requires var h := Steps(m, f, n);
             && Agrees(locals, f, h, st) && Kept(locals, v, v + 1, vars, false, f, h)
             && h.ip == end && end < |m.code| && m.code[end] == Call(v, t, name, argc, argv)
             && 0 <= t < |h.vars| && h.vars[t] == obj && argc == |args| && (v == NO_VAR || locals <= v < |h.vars|)
             && (argc > 0 ==> 0 <= argv && argv + argc <= |h.vars| && h.vars[argv..argv + argc] == args)
    ensures var (out, st1) := Called(m.world, st, obj, name, args);
            Landed(locals, v, end + 1, vars, env, f, Steps(m, f, n + 1), out, st1)
  {
    hide Step, Steps;
    RunCall(m, f, n, v, t, name, argc, argv);
    assert argc == 0 ==> args == [];
  }

  lemma SimulateBinaryOp(m: Machine, locals: nat, rounds: nat, node: Node, v: int, base: nat, vars: nat, env: Env,
                         f: Frame) returns (n: nat)
    requires node.BinaryOpNode? && Ready(m, locals, node, v, base, vars, env, f)
    ensures Simulated(m, locals, rounds, node, v, base, vars, env, f, n)
    decreases rounds, node, 1
  {
    hide Eval, Emit, Size, Step, Steps, At, WellFormed, Kept;
    Unfold(m.world, m.self, rounds, node, StateOf(locals, f), v, base, vars, env);
    PartsWellFormed(node, locals, InLoop(env));
    var t := Temp(v, vars);
    var c1 := Emit(node.first, t, base, Taken(v, vars), env);
    var p := base + |c1.ops|;
    var c2 := Emit(node.second, c1.vars, p, c1.vars + 1, env);
    AtSplit(m.code, base, c1.ops, c2.ops + [Call(v, t, node.name, 1, c1.vars)]);
    n := Simulate(m, locals, rounds, node.first, t, base, Taken(v, vars), env, f);
    var (out, st) := Eval(m.world, m.self, rounds, node.first, StateOf(locals, f));
    if out.Normal? {
      n := SimulateRight(m, locals, rounds, node, v, p, vars, c1.vars, env, f, n, out.value, st);
    } else {
      LeftEarly(locals, v, p + |c2.ops| + 1, vars, env, f, Steps(m, f, n), t, Taken(v, vars), p, out, st);
    }
  }

  /** The left operand is in its register, and the right one is next. */
  lemma SimulateRight(m: Machine, locals: nat, rounds: nat, node: Node, v: int, p: nat, vars: nat, vars1: nat, env: Env,
                      f: Frame, n: nat, left: Value, st: State) returns (k: nat)
    requires node.BinaryOpNode? && WellFormed(node.second, locals, InLoop(env)) && EnvOk(locals, env) && locals < vars
      && Target(locals, v, vars)
    requires var t := Temp(v, vars);
             var c2 := Emit(node.second, vars1, p, vars1 + 1, env);
             && At(m.code, p, c2.ops + [Call(v, t, node.name, 1, vars1)]) && Taken(v, vars) <= vars1
             && Enough(locals, vars, c2.vars, f)
             && Landed(locals, t, p, Taken(v, vars), env, f, Steps(m, f, n), Normal(left), st)
    ensures var c2 := Emit(node.second, vars1, p, vars1 + 1, env);
            var (arg, st1) := Eval(m.world, m.self, rounds, node.second, st);
            var (out, st2) := if arg.Normal? then Called(m.world, st1, left, node.name, [arg.value]) else (arg, st1);
            Landed(locals, v, p + |c2.ops| + 1, vars, env, f, Steps(m, f, k), out, st2)
              && (out.Exhausted? ==> k >= rounds)
    decreases rounds, node, 0
  {
    hide Eval, Emit, Size, Step, Steps, At, WellFormed, Kept;
    var t := Temp(v, vars);
    var c2 := Emit(node.second, vars1, p, vars1 + 1, env);
    var call := Call(v, t, node.name, 1, vars1);
    AtSplit(m.code, p, c2.ops, [call]);
    var g := Steps(m, f, n);
    var j := Simulate(m, locals, rounds, node.second, vars1, p, vars1 + 1, env, g);
    var (arg, st2) := Eval(m.world, m.self, rounds, node.second, st);
    StepsAdd(m, f, n, j);
    k := n + j;
    var h := Steps(m, f, k);
    if !arg.Normal? {
      Onward(locals, v, p + |c2.ops| + 1, vars, env, f, g, t, Taken(v, vars), h, vars1, vars1 + 1, p + |c2.ops|, arg,
             st2);
    } else {
      AtOnly(m.code, p + |c2.ops|, call);
      KeptAt(locals, vars1, vars1 + 1, g, h, t);
      KeptTwice(locals, v, vars, f, g, t, t + 1, Taken(v, vars), h, vars1, vars1 + 1);
      assert h.vars[vars1..vars1 + 1] == [arg.value];
      AfterCall(m, locals, v, vars, p + |c2.ops|, env, f, k, left, t, node.name, 1, vars1, [arg.value], st2);
      k := k + 1;
    }
  }

  lemma SimulateCall(m: Machine, locals: nat, rounds: nat, node: Node, v: int, base: nat, vars: nat, env: Env, f: Frame)
    returns (n: nat)
    requires node.CallNode? && Ready(m, locals, node, v, base, vars, env, f)
    ensures Simulated(m, locals, rounds, node, v, base, vars, env, f, n)
    decreases rounds, node, 1
  {
    hide Eval, Emit, Size, Step, Steps, At;
    Unfold(m.world, m.self, rounds, node, StateOf(locals, f), v, base, vars, env);
    var argc := |node.list|;
    var c1 := CallArgs(node.list, vars, base, vars + argc, env);
    var p := base + |c1.ops|;
    var t := Temp(v, c1.vars);
    var c2 := Emit(node.first, t, p, Taken(v, c1.vars), env);
    var call := Call(v, t, node.name, argc, if argc > 0 then vars else NO_VAR);
    AtSplit(m.code, base, c1.ops, c2.ops + [call]);
    n := SimulateArguments(m, locals, rounds, node.list, vars, base, vars + argc, env, f);
    var (args, st) := EvalArguments(m.world, m.self, rounds, node.list, StateOf(locals, f));
    if args.Arguments? {
      n := SimulateReceiver(m, locals, rounds, node, v, p, vars, c1.vars, env, f, n, args.values, st);
    }
  }

  /** The arguments are in their registers, and the receiver is next. */
  lemma SimulateReceiver(m: Machine, locals: nat, rounds: nat, node: Node, v: int, p: nat, vars: nat, vars1: nat,
                         env: Env, f: Frame, n: nat, args: seq<Value>, st: State) returns (k: nat)
    requires node.CallNode? && WellFormed(node.first, locals, InLoop(env)) && EnvOk(locals, env) && locals < vars
      && Target(locals, v, vars)
    requires var argc := |node.list|;
             var t := Temp(v, vars1);
             var c2 := Emit(node.first, t, p, Taken(v, vars1), env);
             && At(m.code, p, c2.ops + [Call(v, t, node.name, argc, if argc > 0 then vars else NO_VAR)])
             && vars + argc <= vars1 && Enough(locals, vars, c2.vars, f)
             && ArgumentsLanded(locals, vars, p, argc, vars + argc, env, f, Steps(m, f, n), Arguments(args), st)
    ensures var c2 := Emit(node.first, Temp(v, vars1), p, Taken(v, vars1), env);
            var (out, st1) := Eval(m.world, m.self, rounds, node.first, st);
            var (out2, st2) := if out.Normal? then Called(m.world, st1, out.value, node.name, args) else (out, st1);
            Landed(locals, v, p + |c2.ops| + 1, vars, env, f, Steps(m, f, k), out2, st2)
              && (out2.Exhausted? ==> k >= rounds)
    decreases rounds, node, 0
  {
    hide Eval, Emit, Size, Step, Steps, At;
    var argc := |node.list|;
    var t := Temp(v, vars1);
    var c2 := Emit(node.first, t, p, Taken(v, vars1), env);
    var argv := if argc > 0 then vars else NO_VAR;
    var call := Call(v, t, node.name, argc, argv);
    AtSplit(m.code, p, c2.ops, [call]);
    var g := Steps(m, f, n);
    var j := Simulate(m, locals, rounds, node.first, t, p, Taken(v, vars1), env, g);
    var (out, st2) := Eval(m.world, m.self, rounds, node.first, st);
    StepsAdd(m, f, n, j);
    k := n + j;
    var h := Steps(m, f, k);
    if !out.Normal? {
      AfterArguments(locals, v, p + |c2.ops| + 1, vars, env, f, g, argc, h, t, Taken(v, vars1), p + |c2.ops|, out, st2);
    } else {
      AtOnly(m.code, p + |c2.ops|, call);
      KeptTwice(locals, v, vars, f, g, vars, vars + argc, vars + argc, h, t, Taken(v, vars1));
      KeptValues(locals, vars, vars + argc, args, g, h, t, Taken(v, vars1));
      AfterCall(m, locals, v, vars, p + |c2.ops|, env, f, k, out.value, t, node.name, argc, argv, args, st2);
      k := k + 1;
    }
  }

  lemma PartsWellFormed(node: Node, locals: nat, inLoop: bool)
    requires WellFormed(node, locals, inLoop)
    ensures node.IfNode? ==>
      WellFormed(node.first, locals, inLoop) && WellFormed(node.second, locals, inLoop)
      && WellFormed(node.third, locals, inLoop)
    ensures node.BinaryOpNode? ==> WellFormed(node.first, locals, inLoop) && WellFormed(node.second, locals, inLoop)
    ensures node.LoopNode? ==> WellFormed(node.first, locals, inLoop) && WellFormed(node.second, locals, true)
  {
  }

  lemma KeptAt(locals: nat, v: int, vars: nat, f: Frame, g: Frame, r: int)
    requires Kept(locals, v, v + 1, vars, false, f, g) && locals <= r < vars && r != v
    ensures |g.vars| == |f.vars| && vars <= |f.vars| && g.vars[r] == f.vars[r]
  {
  }

  lemma LeftEarly(locals: nat, v: int, end: int, vars: nat, env: Env, f: Frame, g: Frame, v1: int, vars1: nat,
                  end1: int, out: Outcome, st: State)
    requires Landed(locals, v1, end1, vars1, env, f, g, out, st) && !out.Normal?
    requires vars <= vars1 && (v1 == v || v1 >= vars)
    ensures Landed(locals, v, end, vars, env, f, g, out, st)
  {
  }

  lemma KeptJump(locals: nat, v: int, vars: nat, f: Frame, g: Frame, h: Frame)
    requires Kept(locals, v, v + 1, vars, false, f, g) && h.Running? && h.vars == g.vars
    ensures Kept(locals, v, v + 1, vars, false, f, h)
  {
  }

  /** The code of an if, part by part. */
  lemma IfParts(code: seq<Instr>, node: Node, v: int, base: nat, vars: nat, env: Env)
    requires node.IfNode? && At(code, base, Emit(node, v, base, vars, env).ops)
    ensures var t := Temp(v, vars);
            var c1 := Emit(node.first, t, base, Taken(v, vars), env);
            var p := base + |c1.ops|;
            var c2 := Emit(node.second, v, p + 1, c1.vars, env);
            var other := p + 1 + |c2.ops| + 1;
            var c3 := Emit(node.third, v, other, c2.vars, env);
            var end := other + |c3.ops|;
            var c := Emit(node, v, base, vars, env);
            && base + |c.ops| == end && c.vars == c3.vars
            && At(code, base, c1.ops) && p < |code| && code[p] == BranchOn(node.inverted, t, other)
            && At(code, p + 1, c2.ops) && other - 1 < |code| && code[other - 1] == Branch(end)
            && At(code, other, c3.ops)
  {
    hide Emit, Size, At, BranchOn, Taken, Temp;
    EmitIs(node, v, base, vars, env);
    var t := Temp(v, vars);
    var c1 := Emit(node.first, t, base, Taken(v, vars), env);
    var p := base + |c1.ops|;
    var c2 := Emit(node.second, v, p + 1, c1.vars, env);
    var other := p + 1 + |c2.ops| + 1;
    var c3 := Emit(node.third, v, other, c2.vars, env);
    var end := other + |c3.ops|;
    AtSplit(code, base, c1.ops, [BranchOn(node.inverted, t, other)] + (c2.ops + ([Branch(end)] + c3.ops)));
    AtFirst(code, p, BranchOn(node.inverted, t, other), c2.ops + ([Branch(end)] + c3.ops));
    AtSplit(code, p + 1, c2.ops, [Branch(end)] + c3.ops);
    AtFirst(code, other - 1, Branch(end), c3.ops);
  }

  lemma SimulateIf(m: Machine, locals: nat, rounds: nat, node: Node, v: int, base: nat, vars: nat, env: Env, f: Frame)
    returns (n: nat)
    requires node.IfNode? && Ready(m, locals, node, v, base, vars, env, f)
    ensures Simulated(m, locals, rounds, node, v, base, vars, env, f, n)
    decreases rounds, node, 0
  {
    hide Eval, Emit, Size, Step, Steps, At, Kept, WellFormed, BranchOn, Jumped;
    Unfold(m.world, m.self, rounds, node, StateOf(locals, f), v, base, vars, env);
    var t := Temp(v, vars);
    var c1 := Emit(node.first, t, base, Taken(v, vars), env);
    var p := base + |c1.ops|;
    var c2 := Emit(node.second, v, p + 1, c1.vars, env);
    var other := p + 1 + |c2.ops| + 1;
    var c3 := Emit(node.third, v, other, c2.vars, env);
    var end := other + |c3.ops|;
    IfParts(m.code, node, v, base, vars, env);
    PartsWellFormed(node, locals, InLoop(env));
    n := Simulate(m, locals, rounds, node.first, t, base, Taken(v, vars), env, f);
    var (out, st) := Eval(m.world, m.self, rounds, node.first, StateOf(locals, f));
    if out.Normal? {
      RunBranchOn(m, f, n, node.inverted, t, other);
      KeptJump(locals, t, Taken(v, vars), f, Steps(m, f, n), Steps(m, f, n + 1));
      n := n + 1;
      var g := Steps(m, f, n);
      if Test(out.value) != node.inverted {
        var k := Simulate(m, locals, rounds, node.second, v, p + 1, c1.vars, env, g);
        var (out2, st2) := Eval(m.world, m.self, rounds, node.second, st);
        StepsAdd(m, f, n, k);
        n := n + k;
        Onward(locals, v, other - 1, vars, env, f, g, t, Taken(v, vars), Steps(m, f, n), v, c1.vars, other - 1, out2,
               st2);
        if out2.Normal? {
          RunBranch(m, f, n, end);
          KeptJump(locals, v, vars, f, Steps(m, f, n), Steps(m, f, n + 1));
          n := n + 1;
        }
      } else {
        var k := Simulate(m, locals, rounds, node.third, v, other, c2.vars, env, g);
        var (out2, st2) := Eval(m.world, m.self, rounds, node.third, st);
        StepsAdd(m, f, n, k);
        n := n + k;
        Onward(locals, v, end, vars, env, f, g, t, Taken(v, vars), Steps(m, f, n), v, c2.vars, end, out2, st2);
      }
    } else {
      LeftEarly(locals, v, end, vars, env, f, Steps(m, f, n), t, Taken(v, vars), base + |c1.ops|, out, st);
    }
  }

  lemma SimulateGroup(m: Machine, locals: nat, rounds: nat, node: Node, v: int, base: nat, vars: nat, env: Env,
                      f: Frame) returns (n: nat)
    requires node.GroupNode? && Ready(m, locals, node, v, base, vars, env, f)
    ensures Simulated(m, locals, rounds, node, v, base, vars, env, f, n)
    decreases rounds, node, 0
  {
    hide Eval, Emit, Size, Step, Steps, At;
    Unfold(m.world, m.self, rounds, node, StateOf(locals, f), v, base, vars, env);
    if |node.list| == 0 {
      n := 0;
      NoStep(m, f);
      if v != NO_VAR {
        AtOnly(m.code, base, LoadNil(v));
        RunLoad(m, f, n, v, VNil);
        n := 1;
      }
    } else {
      n := SimulateStatements(m, locals, rounds, node.list, v, base, vars, env, f);
    }
  }

  lemma SimulateReturn(m: Machine, locals: nat, rounds: nat, node: Node, v: int, base: nat, vars: nat, env: Env,
                       f: Frame) returns (n: nat)
    requires node.ReturnNode? && Ready(m, locals, node, v, base, vars, env, f)
    ensures Simulated(m, locals, rounds, node, v, base, vars, env, f, n)
    decreases rounds, node, 0
  {
    hide Eval, Emit, Size, Step, Steps, At;
    Unfold(m.world, m.self, rounds, node, StateOf(locals, f), v, base, vars, env);
    var t := Temp(v, vars);
    var c := Emit(node.first, t, base, Taken(v, vars), env);
    var p := base + |c.ops|;
    AtSplit(m.code, base, c.ops, [Move(env.returnVar, t), Branch(env.epilog)]);
    n := Simulate(m, locals, rounds, node.first, t, base, Taken(v, vars), env, f);
    var (out, st) := Eval(m.world, m.self, rounds, node.first, StateOf(locals, f));
    if out.Normal? {
      AtEach(m.code, p, [Move(env.returnVar, t), Branch(env.epilog)]);
      RunMove(m, f, n, env.returnVar, t);
      RunBranch(m, f, n + 1, env.epilog);
      n := n + 2;
    }
  }

  lemma SimulateBreak(m: Machine, locals: nat, rounds: nat, node: Node, v: int, base: nat, vars: nat, env: Env,
                      f: Frame) returns (n: nat)
    requires node.BreakNode? && Ready(m, locals, node, v, base, vars, env, f)
    ensures Simulated(m, locals, rounds, node, v, base, vars, env, f, n)
    decreases rounds, node, 0
  {
    hide Eval, Emit, Size, Step, Steps, At;
    Unfold(m.world, m.self, rounds, node, StateOf(locals, f), v, base, vars, env);
    var t := Temp(v, vars);
    var c := Emit(node.first, t, base, Taken(v, vars), env);
    var p := base + |c.ops|;
    AtSplit(m.code, base, c.ops, [Branch(env.end)]);
    n := Simulate(m, locals, rounds, node.first, t, base, Taken(v, vars), env, f);
    var (out, st) := Eval(m.world, m.self, rounds, node.first, StateOf(locals, f));
    if out.Normal? {
      AtOnly(m.code, p, Branch(env.end));
      RunBranch(m, f, n, env.end);
      n := n + 1;
    }
  }

  lemma SimulateNext(m: Machine, locals: nat, rounds: nat, node: Node, v: int, base: nat, vars: nat, env: Env, f: Frame)
    returns (n: nat)
    requires node.NextNode? && Ready(m, locals, node, v, base, vars, env, f)
    ensures Simulated(m, locals, rounds, node, v, base, vars, env, f, n)
    decreases rounds, node, 0
  {
    hide Eval, Emit, Size, Step, Steps, At;
    Unfold(m.world, m.self, rounds, node, StateOf(locals, f), v, base, vars, env);
    if InLoop(env) {
      AtOnly(m.code, base, Branch(env.start));
      NoStep(m, f);
      RunBranch(m, f, 0, env.start);
      QuietChangesNothing(m.world, m.self, rounds, node.first, StateOf(locals, f));
      n := 1;
      return;
    }
    var t := Temp(v, vars);
    var c := Emit(node.first, t, base, Taken(v, vars), env);
    var p := base + |c.ops|;
    AtSplit(m.code, base, c.ops, [Move(env.returnVar, t), Branch(env.epilog)]);
    n := Simulate(m, locals, rounds, node.first, t, base, Taken(v, vars), env, f);
    var (out, st) := Eval(m.world, m.self, rounds, node.first, StateOf(locals, f));
    if out.Normal? {
      AtEach(m.code, p, [Move(env.returnVar, t), Branch(env.epilog)]);
      RunMove(m, f, n, env.returnVar, t);
      RunBranch(m, f, n + 1, env.epilog);
      n := n + 2;
    }
  }

  /** The code of a loop, part by part. */
  lemma LoopParts(code: seq<Instr>, node: Node, v: int, base: nat, vars: nat, env: Env)
    requires node.LoopNode? && At(code, base, Emit(node, v, base, vars, env).ops)
    ensures var t := Temp(v, vars);
            var c1 := Emit(node.first, t, base, Taken(v, vars), env);
            var p := base + |c1.ops|;
            var end := p + 1 + Size(node.second, true, true) + 1;
            var inner := env.(start := base, end := end);
            var c2 := Emit(node.second, t, p + 1, c1.vars, inner);
            var last := If(v != NO_VAR, LoadNil(v));
            var c := Emit(node, v, base, vars, env);
            && base + |c.ops| == end + |last| && c.vars == c2.vars && |c2.ops| == Size(node.second, true, true)
            && At(code, base, c1.ops) && p < |code| && code[p] == BranchOn(node.inverted, t, end)
            && At(code, p + 1, c2.ops) && end - 1 < |code| && code[end - 1] == Branch(base) && At(code, end, last)
  {
    hide Emit, Size, At, If, BranchOn, Taken;
    var t := Temp(v, vars);
    var c1 := Emit(node.first, t, base, Taken(v, vars), env);
    var p := base + |c1.ops|;
    var end := p + 1 + Size(node.second, true, true) + 1;
    var inner := env.(start := base, end := end);
    var c2 := Emit(node.second, t, p + 1, c1.vars, inner);
    var last := If(v != NO_VAR, LoadNil(v));
    LoopIs(node, v, base, vars, env, c1, inner, c2);
    var test := BranchOn(node.inverted, t, end);
    assert c1.ops + [test] + c2.ops + [Branch(base)] + last == c1.ops + ([test] + (c2.ops + ([Branch(base)] + last)));
    AtSplit(code, base, c1.ops, [test] + (c2.ops + ([Branch(base)] + last)));
    AtFirst(code, p, test, c2.ops + ([Branch(base)] + last));
    AtSplit(code, p + 1, c2.ops, [Branch(base)] + last);
    AtFirst(code, end - 1, Branch(base), last);
  }

  lemma SimulateLoop(m: Machine, locals: nat, rounds: nat, node: Node, v: int, base: nat, vars: nat, env: Env, f: Frame)
    returns (n: nat)
    requires node.LoopNode? && Ready(m, locals, node, v, base, vars, env, f)
    ensures Simulated(m, locals, rounds, node, v, base, vars, env, f, n)
    decreases rounds, node, 2
  {
    hide Eval, Emit, Size, Step, Steps, At, WellFormed, Kept;
    Unfold(m.world, m.self, rounds, node, StateOf(locals, f), v, base, vars, env);
    var t := Temp(v, vars);
    var c1 := Emit(node.first, t, base, Taken(v, vars), env);
    var p := base + |c1.ops|;
    var end := p + 1 + Size(node.second, true, true) + 1;
    var inner := env.(start := base, end := end);
    var c2 := Emit(node.second, t, p + 1, c1.vars, inner);
    var last := If(v != NO_VAR, LoadNil(v));
    LoopParts(m.code, node, v, base, vars, env);
    PartsWellFormed(node, locals, InLoop(env));
    n := Simulate(m, locals, rounds, node.first, t, base, Taken(v, vars), env, f);
    var (out, st) := Eval(m.world, m.self, rounds, node.first, StateOf(locals, f));
    if out.Normal? {
      RunBranchOn(m, f, n, node.inverted, t, end);
      KeptJump(locals, t, Taken(v, vars), f, Steps(m, f, n), Steps(m, f, n + 1));
      n := n + 1;
      var g := Steps(m, f, n);
      if Test(out.value) == node.inverted {
        n := LoopEnds(m, locals, v, end, vars, env, t, f, n, st);
      } else {
        n := SimulateRound(m, locals, rounds, node, v, base, vars, env, f, n, st);
      }
    } else {
      LeftEarly(locals, v, end + |last|, vars, env, f, Steps(m, f, n), t, Taken(v, vars), p, out, st);
    }
  }

  lemma LoopEnds(m: Machine, locals: nat, v: int, end: nat, vars: nat, env: Env, t: int, f: Frame, n: nat, st: State)
    returns (k: nat)
    requires t == Temp(v, vars) && Target(locals, v, vars) && locals < vars
      && At(m.code, end, If(v != NO_VAR, LoadNil(v)))
    requires var g := Steps(m, f, n);
             Agrees(locals, f, g, st) && Kept(locals, t, t + 1, Taken(v, vars), false, f, g) && g.ip == end
    ensures k >= n && Landed(locals, v, end + One(v != NO_VAR), vars, env, f, Steps(m, f, k), Normal(VNil), st)
  {
    hide Step, Steps;
    k := n;
    if v != NO_VAR {
      AtOnly(m.code, end, LoadNil(v));
      RunLoad(m, f, n, v, VNil);
      k := n + 1;
    }
  }

  /** From the test that passed on. */
  lemma SimulateRound(m: Machine, locals: nat, rounds: nat, node: Node, v: int, base: nat, vars: nat, env: Env,
                      f: Frame, n: nat, st: State) returns (k: nat)
    requires node.LoopNode? && Ready(m, locals, node, v, base, vars, env, f) && n > 0
    requires var g := Steps(m, f, n);
             var t := Temp(v, vars);
             Agrees(locals, f, g, st) && Kept(locals, t, t + 1, Taken(v, vars), false, f, g)
             && g.ip == base + Size(node.first, true, InLoop(env)) + 1
    ensures var c := Emit(node, v, base, vars, env);
            var (out, st1) := EvalRound(m.world, m.self, rounds, node, st);
            Landed(locals, v, base + |c.ops|, vars, env, f, Steps(m, f, k), out, st1)
              && (out.Exhausted? ==> k >= rounds)
    decreases rounds, node, 1
  {
    hide Eval, Emit, Size, Step, Steps, At, WellFormed, Kept;
    Unfold(m.world, m.self, rounds, node, st, v, base, vars, env);
    var t := Temp(v, vars);
    var c1 := Emit(node.first, t, base, Taken(v, vars), env);
    var p := base + |c1.ops|;
    var end := p + 1 + Size(node.second, true, true) + 1;
    var inner := env.(start := base, end := end);
    var c2 := Emit(node.second, t, p + 1, c1.vars, inner);
    var last := If(v != NO_VAR, LoadNil(v));
    LoopParts(m.code, node, v, base, vars, env);
    PartsWellFormed(node, locals, InLoop(env));
    var g := Steps(m, f, n);
    var j := Simulate(m, locals, rounds, node.second, t, p + 1, c1.vars, inner, g);
    var (round, st1) := Eval(m.world, m.self, rounds, node.second, st);
    StepsAdd(m, f, n, j);
    k := n + j;
    Onward(locals, t, end - 1, Taken(v, vars), inner, f, g, t, Taken(v, vars), Steps(m, f, k), t, c1.vars, end - 1,
           round, st1);
    if round.Normal? || round.Nexted? {
      k := SimulateAgain(m, locals, rounds, node, v, base, vars, env, inner, f, k, round, st1);
    } else if round.Broke? {
      k := LoopEnds(m, locals, v, end, vars, env, t, f, k, st1);
    } else {
      RoundLeaves(locals, v, end + |last|, vars, env, inner, t, end - 1, f, Steps(m, f, k), round, st1);
    }
  }

  lemma RoundLeaves(locals: nat, v: int, end: int, vars: nat, env: Env, inner: Env, t: int, end1: int, f: Frame,
                    g: Frame, out: Outcome, st: State)
    requires t == Temp(v, vars) && env.epilog == inner.epilog && (out.Returned? || out.Exhausted?)
    requires Landed(locals, t, end1, Taken(v, vars), inner, f, g, out, st)
    ensures Landed(locals, v, end, vars, env, f, g, out, st)
  {
  }

  /** From the end of the body on. */
  lemma SimulateAgain(m: Machine, locals: nat, rounds: nat, node: Node, v: int, base: nat, vars: nat, env: Env,
                      inner: Env, f: Frame, n: nat, round: Outcome, st: State) returns (k: nat)
    requires node.LoopNode? && Ready(m, locals, node, v, base, vars, env, f) && n > 0
    requires (round.Normal? || round.Nexted?) && inner.start == base
    requires var t := Temp(v, vars);
             var end := base + Size(node.first, true, InLoop(env)) + 1 + Size(node.second, true, true);
             Landed(locals, t, end, Taken(v, vars), inner, f, Steps(m, f, n), round, st) && end < |m.code|
               && m.code[end] == Branch(base)
    ensures var c := Emit(node, v, base, vars, env);
            var (out, st1) := if rounds == 0 then (Exhausted, st) else Eval(m.world, m.self, rounds - 1, node, st);
            Landed(locals, v, base + |c.ops|, vars, env, f, Steps(m, f, k), out, st1)
              && (out.Exhausted? ==> k >= rounds)
    decreases rounds, node, 0
  {
    hide Eval, Emit, Size, Step, Steps, At, WellFormed;
    var t := Temp(v, vars);
    k := n;
    if round.Normal? {
      RunBranch(m, f, k, base);
      k := k + 1;
    }
    if rounds > 0 {
      var again := Steps(m, f, k);
      var i := Simulate(m, locals, rounds - 1, node, v, base, vars, env, again);
      var (out, st2) := Eval(m.world, m.self, rounds - 1, node, st);
      StepsAdd(m, f, k, i);
      var end := base + |Emit(node, v, base, vars, env).ops|;
      Onward(locals, v, end, vars, env, f, again, t, Taken(v, vars), Steps(m, f, k + i), v, vars, end, out, st2);
      k := k + i;
    }
  }

  predicate ReadyForList(m: Machine, locals: nat, list: seq<Node>, base: nat, vars: nat, env: Env, f: Frame, c: Code) {
    && AllWellFormed(list, locals, InLoop(env)) && EnvOk(locals, env)
    && At(m.code, base, c.ops) && Enough(locals, vars, c.vars, f) && f.ip == base
  }

  lemma {:induction false} SimulateStatements(m: Machine, locals: nat, rounds: nat, list: seq<Node>, v: int, base: nat,
                                              vars: nat, env: Env, f: Frame) returns (n: nat)
    requires |list| > 0 && Target(locals, v, vars)
      && ReadyForList(m, locals, list, base, vars, env, f, Statements(list, v, base, vars, env))
    ensures var c := Statements(list, v, base, vars, env);
            var (out, st) := EvalStatements(m.world, m.self, rounds, list, StateOf(locals, f));
            Landed(locals, v, base + |c.ops|, vars, env, f, Steps(m, f, n), out, st) && (out.Exhausted? ==> n >= rounds)
    decreases rounds, list, 0
  {
    hide Eval, Emit, Size, Step, Steps, At;
    var v1 := if |list| > 1 then NO_VAR else v;
    var c1 := Emit(list[0], v1, base, vars, env);
    var c2 := Statements(list[1..], v, base + |c1.ops|, c1.vars, env);
    AtSplit(m.code, base, c1.ops, c2.ops);
    n := Simulate(m, locals, rounds, list[0], v1, base, vars, env, f);
    var (out, st) := Eval(m.world, m.self, rounds, list[0], StateOf(locals, f));
    var g := Steps(m, f, n);
    if |list| > 1 {
      if out.Normal? {
        var k := SimulateStatements(m, locals, rounds, list[1..], v, base + |c1.ops|, c1.vars, env, g);
        var (out2, st2) := EvalStatements(m.world, m.self, rounds, list[1..], st);
        var end := base + |c1.ops| + |c2.ops|;
        StepsAdd(m, f, n, k);
        n := n + k;
        Keeps(locals, v, vars, f, g);
        Onward(locals, v, end, vars, env, f, g, v, vars, Steps(m, f, n), v, c1.vars, end, out2, st2);
      }
    }
  }

  lemma Keeps(locals: nat, v: int, vars: nat, f: Frame, g: Frame)
    requires Kept(locals, NO_VAR, NO_VAR + 1, vars, false, f, g)
    ensures Kept(locals, v, v + 1, vars, false, f, g)
  {
  }

  lemma NoArguments(m: Machine, locals: nat, list: seq<Node>, v: nat, base: nat, vars: nat, env: Env, f: Frame)
    requires |list| == 0 && locals < v <= vars
      && ReadyForList(m, locals, list, base, vars, env, f, CallArgs(list, v, base, vars, env))
    ensures CallArgs(list, v, base, vars, env) == Code([], vars)
    ensures ArgumentsLanded(locals, v, base, 0, vars, env, f, f, Arguments([]), StateOf(locals, f))
  {
  }

  lemma EvaluatedArguments(world: Oracle, self: Value, rounds: nat, list: seq<Node>, st: State)
    ensures |list| == 0 ==> EvalArguments(world, self, rounds, list, st) == (Arguments([]), st)
    ensures |list| > 0 ==>
      var (out, st1) := Eval(world, self, rounds, list[0], st);
      var (rest, st2) := EvalArguments(world, self, rounds, list[1..], st1);
      EvalArguments(world, self, rounds, list, st)
        == if !out.Normal? then (Left(out), st1)
           else (if rest.Left? then rest else Arguments([out.value] + rest.values), st2)
  {
    hide Eval;
  }

  lemma FirstArgument(m: Machine, locals: nat, list: seq<Node>, v: nat, base: nat, vars: nat, env: Env, f: Frame)
    requires |list| > 0 && locals < v && v + |list| <= vars
      && ReadyForList(m, locals, list, base, vars, env, f, CallArgs(list, v, base, vars, env))
    ensures Ready(m, locals, list[0], v, base, vars, env, f)
    ensures var c1 := Emit(list[0], v, base, vars, env);
            var c2 := CallArgs(list[1..], v + 1, base + |c1.ops|, c1.vars, env);
            vars <= c1.vars && CallArgs(list, v, base, vars, env) == Code(c1.ops + c2.ops, c2.vars)
  {
    hide Emit, Size, At, WellFormed;
    var c1 := Emit(list[0], v, base, vars, env);
    AtSplit(m.code, base, c1.ops, CallArgs(list[1..], v + 1, base + |c1.ops|, c1.vars, env).ops);
  }

  lemma OtherArguments(m: Machine, locals: nat, list: seq<Node>, v: nat, base: nat, vars: nat, env: Env, f: Frame,
                       g: Frame, out: Outcome, st: State)
    requires |list| > 0 && locals < v && v + |list| <= vars
      && ReadyForList(m, locals, list, base, vars, env, f, CallArgs(list, v, base, vars, env))
    requires Landed(locals, v, base + |Emit(list[0], v, base, vars, env).ops|, vars, env, f, g, out, st) && out.Normal?
    ensures var c1 := Emit(list[0], v, base, vars, env);
            ReadyForList(m, locals, list[1..], base + |c1.ops|, c1.vars, env, g,
                         CallArgs(list[1..], v + 1, base + |c1.ops|, c1.vars, env))
    ensures StateOf(locals, g) == st && Kept(locals, v, v + 1, vars, false, f, g) && g.Running? && v < |g.vars|
      && g.vars[v] == out.value
  {
    hide Emit, Size, At, WellFormed, Kept;
    var c1 := Emit(list[0], v, base, vars, env);
    AtSplit(m.code, base, c1.ops, CallArgs(list[1..], v + 1, base + |c1.ops|, c1.vars, env).ops);
  }

  lemma ArgumentsLeft(locals: nat, v: nat, end: int, end1: int, count: nat, vars: nat, env: Env, f: Frame, g: Frame,
                      out: Outcome, st: State)
    requires Landed(locals, v, end, vars, env, f, g, out, st) && !out.Normal? && count > 0
    ensures ArgumentsLanded(locals, v, end1, count, vars, env, f, g, Left(out), st)
  {
  }

  lemma {:induction false} SimulateArguments(m: Machine, locals: nat, rounds: nat, list: seq<Node>, v: nat, base: nat,
                                             vars: nat, env: Env, f: Frame) returns (n: nat)
    requires locals < v && v + |list| <= vars
      && ReadyForList(m, locals, list, base, vars, env, f, CallArgs(list, v, base, vars, env))
    ensures var c := CallArgs(list, v, base, vars, env);
            var (args, st) := EvalArguments(m.world, m.self, rounds, list, StateOf(locals, f));
            ArgumentsLanded(locals, v, base + |c.ops|, |list|, vars, env, f, Steps(m, f, n), args, st)
            && (args == Left(Exhausted) ==> n >= rounds)
    decreases rounds, list, 0
  {
    hide Eval, Emit, Size, Step, Steps, At, WellFormed, Kept, Agrees, Landed, ArgumentsLanded, ReadyForList, Ready,
      CallArgs, EvalArguments, StateOf;
    EvaluatedArguments(m.world, m.self, rounds, list, StateOf(locals, f));
    if |list| == 0 {
      n := 0;
      NoStep(m, f);
      NoArguments(m, locals, list, v, base, vars, env, f);
    } else {
      var c1 := Emit(list[0], v, base, vars, env);
      var c2 := CallArgs(list[1..], v + 1, base + |c1.ops|, c1.vars, env);
      var end := base + |c1.ops| + |c2.ops|;
      FirstArgument(m, locals, list, v, base, vars, env, f);
      n := Simulate(m, locals, rounds, list[0], v, base, vars, env, f);
      var (out, st) := Eval(m.world, m.self, rounds, list[0], StateOf(locals, f));
      var g := Steps(m, f, n);
      if out.Normal? {
        OtherArguments(m, locals, list, v, base, vars, env, f, g, out, st);
        var k := SimulateArguments(m, locals, rounds, list[1..], v + 1, base + |c1.ops|, c1.vars, env, g);
        var (rest, st2) := EvalArguments(m.world, m.self, rounds, list[1..], st);
        StepsAdd(m, f, n, k);
        n := n + k;
        MoreArguments(locals, v, end, |list|, vars, c1.vars, env, f, g, out.value, Steps(m, f, n), rest, st2);
      } else {
        ArgumentsLeft(locals, v, base + |c1.ops|, end, |list|, vars, env, f, g, out, st);
      }
    }
  }

  lemma MoreArguments(locals: nat, v: nat, end: nat, count: nat, vars: nat, vars1: nat, env: Env, f: Frame, g: Frame,
                      x: Value, h: Frame, rest: Arguments, st: State)
    requires locals < v && v + count <= vars <= vars1 && count > 0
    requires Kept(locals, v, v + 1, vars, false, f, g) && g.vars[v] == x
    requires ArgumentsLanded(locals, v + 1, end, count - 1, vars1, env, g, h, rest, st)
    ensures ArgumentsLanded(locals, v, end, count, vars, env, f, h, if rest.Left? then rest
                            else Arguments([x] + rest.values), st)
  {
    if rest.Arguments? {
      assert h.vars[v] == x;
      assert h.vars[v..v + count] == [x] + h.vars[v + 1..v + count];
    }
  }

  lemma AfterArguments(locals: nat, v: int, end: int, vars: nat, env: Env, f: Frame, g: Frame, argc: nat, h: Frame,
                       v2: int, vars2: nat, end2: int, out: Outcome, st: State)
    requires Kept(locals, vars, vars + argc, vars + argc, false, f, g)
      && Landed(locals, v2, end2, vars2, env, g, h, out, st)
    requires vars + argc <= vars2 && (v2 == v || v2 >= vars) && !out.Normal?
    ensures Landed(locals, v, end, vars, env, f, h, out, st)
  {
  }

  lemma {:induction false} Simulate(m: Machine, locals: nat, rounds: nat, node: Node, v: int, base: nat, vars: nat,
                                    env: Env, f: Frame) returns (n: nat)
    requires Ready(m, locals, node, v, base, vars, env, f)
    ensures Simulated(m, locals, rounds, node, v, base, vars, env, f, n)
    decreases rounds, node, 3
  {
    hide *;
    match node
    case LeafNode(_) => n := SimulateLeaf(m, locals, rounds, node, v, base, vars, env, f);
    case AssignmentNode(_, _) => n := SimulateAssignment(m, locals, rounds, node, v, base, vars, env, f);
    case BooleanNotNode(_) => n := SimulateBooleanNot(m, locals, rounds, node, v, base, vars, env, f);
    case BooleanOpNode(_, _, _) => n := SimulateBooleanOp(m, locals, rounds, node, v, base, vars, env, f);
    case BinaryOpNode(_, _, _) => n := SimulateBinaryOp(m, locals, rounds, node, v, base, vars, env, f);
    case CallNode(_, _, _) => n := SimulateCall(m, locals, rounds, node, v, base, vars, env, f);
    case IfNode(_, _, _, _) => n := SimulateIf(m, locals, rounds, node, v, base, vars, env, f);
    case LoopNode(_, _, _) => n := SimulateLoop(m, locals, rounds, node, v, base, vars, env, f);
    case GroupNode(_) => n := SimulateGroup(m, locals, rounds, node, v, base, vars, env, f);
    case ReturnNode(_) => n := SimulateReturn(m, locals, rounds, node, v, base, vars, env, f);
    case BreakNode(_) => n := SimulateBreak(m, locals, rounds, node, v, base, vars, env, f);
    case NextNode(_) => n := SimulateNext(m, locals, rounds, node, v, base, vars, env, f);
  }

  // ----- whole methods ---------------------------------------------------------------------------

  /** A fresh frame: the locals as given, the other registers hold anything. */
  predicate Starts(group: Node, locals: nat, f: Frame) {
    WellFormed(group, locals, false) && f.Running? && f.ip == 0 && |f.vars| == MethodCode(group, locals).vars
  }

  /** The method came to its end as the evaluation says. */
  predicate Ends(locals: nat, g: Frame, value: Value, st: State) {
    g.Finished? && g.value == value && locals <= |g.vars| && g.vars[..locals] == st.locals && g.trace == st.trace
  }

  function MachineOf(world: Oracle, self: Value, group: Node, locals: nat): Machine {
    Machine(world, self, MethodCode(group, locals).ops)
  }

  lemma MethodStep(world: Oracle, self: Value, rounds: nat, group: Node, locals: nat, f: Frame) returns (n: nat)
    requires Starts(group, locals, f)
    ensures var (out, st) := Method(world, self, rounds, group, StateOf(locals, f));
            var g := Steps(MachineOf(world, self, group, locals), f, n);
            && (out.Returned? || out.Exhausted?)
            && (out.Returned? ==> Ends(locals, g, out.value, st))
            && (out.Exhausted? ==> g.Running? && n >= rounds)
  {
    hide Eval, Emit, Size, Step, Steps, WellFormed;
    var m := MachineOf(world, self, group, locals);
    var epilog := Size(group, true, false);
    var env := Env(-1, -1, epilog, locals);
    var c := Emit(group, locals, 0, locals + 1, env);
    AtSplit(m.code, 0, c.ops, [ReturnOp(locals)]);
    n := Simulate(m, locals, rounds, group, locals, 0, locals + 1, env, f);
    var (out, st) := Eval(world, self, rounds, group, StateOf(locals, f));
    if !out.Exhausted? {
      AtOnly(m.code, epilog, ReturnOp(locals));
      RunReturn(m, f, n, locals);
      n := n + 1;
    }
  }

  lemma RunReturn(m: Machine, f: Frame, n: nat, v: int)
    requires var g := Steps(m, f, n);
             g.Running? && 0 <= g.ip < |m.code| && m.code[g.ip] == ReturnOp(v) && 0 <= v < |g.vars|
    ensures var g := Steps(m, f, n);
            Steps(m, f, n + 1) == Finished(g.vars[v], g.vars, g.trace)
  {
    OneMore(m, f, n);
  }

  /** Once it is not running a frame stays what it is. */
  lemma Settled(m: Machine, f: Frame, a: nat, b: nat)
    requires a <= b && !Steps(m, f, a).Running?
    ensures Steps(m, f, b) == Steps(m, f, a)
  {
    StepsAdd(m, f, a, b - a);
    FinishedStays(m, Steps(m, f, a), b - a);
  }

  /** Compilation preserves meaning: a method that evaluates to something runs to its end with the
      same value, locals and calls; one that loops for ever does not come to an end; and there is no
      other way for it to go. */
  lemma CompilationIsCorrect(world: Oracle, self: Value, group: Node, locals: nat, f: Frame, k: nat)
    requires Starts(group, locals, f)
    ensures var m := MachineOf(world, self, group, locals);
            var (out, st) := Method(world, self, k, group, StateOf(locals, f));
            && !Steps(m, f, k).Stuck?
            && (out.Returned? ==> exists n :: Ends(locals, Steps(m, f, n), out.value, st))
            && (out.Exhausted? ==> Steps(m, f, k).Running?)
            && (Steps(m, f, k).Finished? ==> out.Returned? && Ends(locals, Steps(m, f, k), out.value, st))
  {
    hide Step, Steps, Eval, Emit, MethodCode;
    var m := MachineOf(world, self, group, locals);
    var n := MethodStep(world, self, k, group, locals, f);
    if n <= k {
      if !Steps(m, f, n).Running? {
        Settled(m, f, n, k);
      }
    } else if !Steps(m, f, k).Running? {
      Settled(m, f, k, n);
    }
  }

  lemma TerminatesAlike(world: Oracle, self: Value, group: Node, locals: nat, f: Frame)
    requires Starts(group, locals, f)
    ensures (exists k :: Method(world, self, k, group, StateOf(locals, f)).0.Returned?)
            <==> (exists n :: Steps(MachineOf(world, self, group, locals), f, n).Finished?)
  {
    hide Step, Steps, Eval, Emit, MethodCode, Method, Starts;
    var m := MachineOf(world, self, group, locals);
    forall k | Method(world, self, k, group, StateOf(locals, f)).0.Returned?
      ensures exists n :: Steps(m, f, n).Finished?
    {
      var n := MethodStep(world, self, k, group, locals, f);
      assert Steps(m, f, n).Finished?;
    }
    forall n: nat | Steps(m, f, n).Finished?
      ensures exists k :: Method(world, self, k, group, StateOf(locals, f)).0.Returned?
    {
      CompilationIsCorrect(world, self, group, locals, f, n);
      assert Method(world, self, n, group, StateOf(locals, f)).0.Returned?;
    }
    if k :| Method(world, self, k, group, StateOf(locals, f)).0.Returned? {
      assert exists n :: Steps(m, f, n).Finished?;
    }
  }

  /** A next with a value inside a loop does what it means if and only if its value comes out
      without having changed a local or made a call. */
  lemma NextInLoop(m: Machine, locals: nat, rounds: nat, first: Node, v: int, base: nat, vars: nat, env: Env, f: Frame)
    requires InLoop(env) && env.start != env.end && env.start != env.epilog && f.Running? && f.ip == base
    requires locals < vars <= |f.vars| && At(m.code, base, Emit(NextNode(first), v, base, vars, env).ops)
    ensures var (out, st) := Eval(m.world, m.self, rounds, NextNode(first), StateOf(locals, f));
            Landed(locals, v, base + 1, vars, env, f, Steps(m, f, 1), out, st)
            <==> out.Exhausted? || (out.Nexted? && st == StateOf(locals, f))
  {
    hide Eval, Emit, Size, Step, Steps, At;
    Unfold(m.world, m.self, rounds, NextNode(first), StateOf(locals, f), v, base, vars, env);
    AtOnly(m.code, base, Branch(env.start));
    NoStep(m, f);
    RunBranch(m, f, 0, env.start);
  }

  /** A call as the value is such a case: it is never made. */
  lemma CallInNext(world: Oracle, self: Value, rounds: nat, name: string, st: State)
    ensures var (out, st1) := Eval(world, self, rounds, NextNode(CallNode(LeafNode(SelfLeaf), name, [])), st);
            out.Nexted? && st1.trace == st.trace + [Event(self, name, [])] && st1 != st
  {
    hide Emit, Size;
    var call := CallNode(LeafNode(SelfLeaf), name, []);
    assert EvalArguments(world, self, rounds, [], st) == (Arguments([]), st);
    assert Eval(world, self, rounds, LeafNode(SelfLeaf), st) == (Normal(self), st);
    assert Eval(world, self, rounds, call, st) == EvalCall(world, self, rounds, call, st);
    assert |st.trace + [Event(self, name, [])]| == |st.trace| + 1;
  }
}
