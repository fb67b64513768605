/** The code of a tree, as a function: branch targets computed from the lengths of the parts. */
module CodeGen {
  import opened Tree
  import opened Vm

  /** Where jumps out of a node go: the innermost loop's start and end (-1 outside of loops), the
      end of the method, and the register of its result. */
  datatype Env = Env(start: int, end: int, epilog: int, returnVar: int)

  /** Instructions, and the number of registers taken once they are generated. */
  datatype Code = Code(ops: seq<Instr>, vars: nat)

  predicate InLoop(env: Env) {
    env.start >= 0
  }

  // reuse()
  function Temp(v: int, vars: nat): int {
    if v == NO_VAR then vars else v
  }

  function Taken(v: int, vars: nat): nat {
    if v == NO_VAR then vars + 1 else vars
  }

  function One(used: bool): nat {
    if used then 1 else 0
  }

  /** The number of instructions of a node. */
  function Size(node: Node, used: bool, inLoop: bool): nat
    decreases node
  {
    match node
    case LeafNode(_) => One(used)
    case AssignmentNode(_, first) => Size(first, true, inLoop) + 1 + One(used)
    case BooleanNotNode(first) => Size(first, used, inLoop) + if used then 4 else 0
    case BooleanOpNode(_, first, second) => Size(first, true, inLoop) + 1 + Size(second, used, inLoop)
    case BinaryOpNode(_, first, second) => Size(first, true, inLoop) + Size(second, true, inLoop) + 1
    case CallNode(first, _, list) => ArgumentSize(list, inLoop) + Size(first, true, inLoop) + 1
    case IfNode(_, first, second, third) =>
      Size(first, true, inLoop) + 1 + Size(second, used, inLoop) + 1 + Size(third, used, inLoop)
    case LoopNode(_, first, second) => Size(first, true, inLoop) + 1 + Size(second, true, true) + 1 + One(used)
    case GroupNode(list) => if |list| == 0 then One(used) else GroupSize(list, used, inLoop)
    case ReturnNode(first) => Size(first, true, inLoop) + 2
    case BreakNode(first) => Size(first, true, inLoop) + 1
    case NextNode(first) => if inLoop then 1 else Size(first, true, inLoop) + 2
  }

  function GroupSize(list: seq<Node>, used: bool, inLoop: bool): nat
    decreases list
  {
    if |list| == 0 then 0
    else Size(list[0], |list| == 1 && used, inLoop) + GroupSize(list[1..], used, inLoop)
  }

  function ArgumentSize(list: seq<Node>, inLoop: bool): nat
    decreases list
  {
    if |list| == 0 then 0 else Size(list[0], true, inLoop) + ArgumentSize(list[1..], inLoop)
  }

  function If(used: bool, code: Instr): (r: seq<Instr>)
    ensures |r| == One(used)
  {
    if used then [code] else []
  }

  function BranchOn(b: bool, v: int, pos: int): Instr {
    if b then BranchIf(v, pos) else BranchUnless(v, pos)
  }

  /** to_bytecode: the code of a node that starts at position base and leaves the value in
      register v. */
  function Emit(node: Node, v: int, base: nat, vars: nat, env: Env): (c: Code)
    ensures vars <= c.vars && |c.ops| == Size(node, v != NO_VAR, InLoop(env))
    decreases node, 1
  {
    match node
    case LeafNode(_) => ConvertLeaf(node, v, vars, env)
    case AssignmentNode(_, _) => ConvertAssignment(node, v, base, vars, env)
    case BooleanNotNode(_) => ConvertBooleanNot(node, v, base, vars, env)
    case BooleanOpNode(_, _, _) => ConvertBooleanOp(node, v, base, vars, env)
    case BinaryOpNode(_, _, _) => ConvertBinaryOp(node, v, base, vars, env)
    case CallNode(_, _, _) => ConvertCall(node, v, base, vars, env)
    case IfNode(_, _, _, _) => ConvertIf(node, v, base, vars, env)
    case LoopNode(_, _, _) => ConvertLoop(node, v, base, vars, env)
    case GroupNode(_) => ConvertGroup(node, v, base, vars, env)
    case ReturnNode(_) => ConvertReturn(node, v, base, vars, env)
    case BreakNode(_) => ConvertBreak(node, v, base, vars, env)
    case NextNode(_) => ConvertNext(node, v, base, vars, env)
  }

  function ConvertLeaf(node: Node, v: int, vars: nat, env: Env): (c: Code)
    requires node.LeafNode?
    ensures vars <= c.vars && |c.ops| == Size(node, v != NO_VAR, InLoop(env))
  {
    Code(If(v != NO_VAR, LeafCode(node.leaf, v)), vars)
  }

  function LeafCode(leaf: Leaf, v: int): Instr {
    match leaf
    case NilLeaf => LoadNil(v)
    case TrueLeaf => LoadTrue(v)
    case FalseLeaf => LoadFalse(v)
    case SelfLeaf => SelfOp(v)
    case IntegerLeaf(n) => LoadFixnum(v, n)
    case VariableLeaf(loc) => Move(v, loc)
  }

  function ConvertAssignment(node: Node, v: int, base: nat, vars: nat, env: Env): (c: Code)
    requires node.AssignmentNode?
    ensures vars <= c.vars && |c.ops| == Size(node, v != NO_VAR, InLoop(env))
    decreases node, 0
  {
    var t := Temp(v, vars);
    var c := Emit(node.first, t, base, Taken(v, vars), env);
    Code(c.ops + ([Move(node.loc, t)] + If(v != NO_VAR, Move(v, t))), c.vars)
  }

  function ConvertBooleanNot(node: Node, v: int, base: nat, vars: nat, env: Env): (c: Code)
    requires node.BooleanNotNode?
    ensures vars <= c.vars && |c.ops| == Size(node, v != NO_VAR, InLoop(env))
    decreases node, 0
  {
    var c := Emit(node.first, v, base, vars, env);
    var p := base + |c.ops|;
    Code(c.ops + if v != NO_VAR then [BranchIf(v, p + 3), LoadTrue(v), Branch(p + 4), LoadFalse(v)] else [], c.vars)
  }

  function ConvertBooleanOp(node: Node, v: int, base: nat, vars: nat, env: Env): (c: Code)
    requires node.BooleanOpNode?
    ensures vars <= c.vars && |c.ops| == Size(node, v != NO_VAR, InLoop(env))
    decreases node, 0
  {
    var t := Temp(v, vars);
    var c1 := Emit(node.first, t, base, Taken(v, vars), env);
    var p := base + |c1.ops|;
    var c2 := Emit(node.second, v, p + 1, c1.vars, env);
    Code(c1.ops + ([BranchOn(node.isOr, t, p + 1 + |c2.ops|)] + c2.ops), c2.vars)
  }

  function ConvertBinaryOp(node: Node, v: int, base: nat, vars: nat, env: Env): (c: Code)
    requires node.BinaryOpNode?
    ensures vars <= c.vars && |c.ops| == Size(node, v != NO_VAR, InLoop(env))
    decreases node, 0
  {
    var t := Temp(v, vars);
    var c1 := Emit(node.first, t, base, Taken(v, vars), env);
    var c2 := Emit(node.second, c1.vars, base + |c1.ops|, c1.vars + 1, env);
    Code(c1.ops + (c2.ops + [Call(v, t, node.name, 1, c1.vars)]), c2.vars)
  }

  /** Arguments first, then the receiver. */
  function ConvertCall(node: Node, v: int, base: nat, vars: nat, env: Env): (c: Code)
    requires node.CallNode?
    ensures vars <= c.vars && |c.ops| == Size(node, v != NO_VAR, InLoop(env))
    decreases node, 0
  {
    var argc := |node.list|;
    var c1 := CallArgs(node.list, vars, base, vars + argc, env);
    var t := Temp(v, c1.vars);
    var c2 := Emit(node.first, t, base + |c1.ops|, Taken(v, c1.vars), env);
    Code(c1.ops + (c2.ops + [Call(v, t, node.name, argc, if argc > 0 then vars else NO_VAR)]), c2.vars)
  }

  function ConvertIf(node: Node, v: int, base: nat, vars: nat, env: Env): (c: Code)
    requires node.IfNode?
    ensures vars <= c.vars && |c.ops| == Size(node, v != NO_VAR, InLoop(env))
    decreases node, 0
  {
    var t := Temp(v, vars);
    var c1 := Emit(node.first, t, base, Taken(v, vars), env);
    var p := base + |c1.ops|;
    var c2 := Emit(node.second, v, p + 1, c1.vars, env);
    var other := p + 1 + |c2.ops| + 1;
    var c3 := Emit(node.third, v, other, c2.vars, env);
    Code(c1.ops + ([BranchOn(node.inverted, t, other)] + (c2.ops + ([Branch(other + |c3.ops|)] + c3.ops))), c3.vars)
  }

  function ConvertLoop(node: Node, v: int, base: nat, vars: nat, env: Env): (c: Code)
    requires node.LoopNode?
    ensures vars <= c.vars && |c.ops| == Size(node, v != NO_VAR, InLoop(env))
    decreases node, 0
  {
    var t := Temp(v, vars);
    var c1 := Emit(node.first, t, base, Taken(v, vars), env);
    var p := base + |c1.ops|;
    var end := p + 1 + Size(node.second, true, true) + 1;
    var c2 := Emit(node.second, t, p + 1, c1.vars, env.(start := base, end := end));
    Code(c1.ops + ([BranchOn(node.inverted, t, end)] + (c2.ops + ([Branch(base)] + If(v != NO_VAR, LoadNil(v))))),
         c2.vars)
  }

  function ConvertReturn(node: Node, v: int, base: nat, vars: nat, env: Env): (c: Code)
    requires node.ReturnNode?
    ensures vars <= c.vars && |c.ops| == Size(node, v != NO_VAR, InLoop(env))
    decreases node, 0
  {
    var t := Temp(v, vars);
    var c := Emit(node.first, t, base, Taken(v, vars), env);
    Code(c.ops + [Move(env.returnVar, t), Branch(env.epilog)], c.vars)
  }

  function ConvertBreak(node: Node, v: int, base: nat, vars: nat, env: Env): (c: Code)
    requires node.BreakNode?
    ensures vars <= c.vars && |c.ops| == Size(node, v != NO_VAR, InLoop(env))
    decreases node, 0
  {
    var t := Temp(v, vars);
    var c := Emit(node.first, t, base, Taken(v, vars), env);
    Code(c.ops + [if InLoop(env) then Branch(env.end) else UnwindBreak(t)], c.vars)
  }

  /** In a loop the value is not even generated. */
  function ConvertNext(node: Node, v: int, base: nat, vars: nat, env: Env): (c: Code)
    requires node.NextNode?
    ensures vars <= c.vars && |c.ops| == Size(node, v != NO_VAR, InLoop(env))
    decreases node, 0
  {
    if InLoop(env) then Code([Branch(env.start)], Taken(v, vars))
    else
      var t := Temp(v, vars);
      var c := Emit(node.first, t, base, Taken(v, vars), env);
      Code(c.ops + [Move(env.returnVar, t), Branch(env.epilog)], c.vars)
  }

  function ConvertGroup(node: Node, v: int, base: nat, vars: nat, env: Env): (c: Code)
    requires node.GroupNode?
    ensures vars <= c.vars && |c.ops| == Size(node, v != NO_VAR, InLoop(env))
    decreases node, 0
  {
    if |node.list| == 0 then Code(If(v != NO_VAR, LoadNil(v)), vars) else Statements(node.list, v, base, vars, env)
  }

  /** The statements in order; only the last one's value is wanted. */
  function Statements(list: seq<Node>, v: int, base: nat, vars: nat, env: Env): (c: Code)
    ensures vars <= c.vars && |c.ops| == GroupSize(list, v != NO_VAR, InLoop(env))
    decreases list, 0
  {
    if |list| == 0 then Code([], vars)
    else
      var c1 := Emit(list[0], if |list| > 1 then NO_VAR else v, base, vars, env);
      var c2 := Statements(list[1..], v, base + |c1.ops|, c1.vars, env);
      Code(c1.ops + c2.ops, c2.vars)
  }

  /** The arguments go to consecutive registers from v on. */
  function CallArgs(list: seq<Node>, v: nat, base: nat, vars: nat, env: Env): (c: Code)
    ensures vars <= c.vars && |c.ops| == ArgumentSize(list, InLoop(env))
    decreases list, 0
  {
    if |list| == 0 then Code([], vars)
    else
      var c1 := Emit(list[0], v, base, vars, env);
      var c2 := CallArgs(list[1..], v + 1, base + |c1.ops|, c1.vars, env);
      Code(c1.ops + c2.ops, c2.vars)
  }

  lemma EmitIs(node: Node, v: int, base: nat, vars: nat, env: Env)
    ensures node.AssignmentNode? ==> Emit(node, v, base, vars, env) == ConvertAssignment(node, v, base, vars, env)
    ensures node.BooleanNotNode? ==> Emit(node, v, base, vars, env) == ConvertBooleanNot(node, v, base, vars, env)
    ensures node.BooleanOpNode? ==> Emit(node, v, base, vars, env) == ConvertBooleanOp(node, v, base, vars, env)
    ensures node.BinaryOpNode? ==> Emit(node, v, base, vars, env) == ConvertBinaryOp(node, v, base, vars, env)
    ensures node.CallNode? ==> Emit(node, v, base, vars, env) == ConvertCall(node, v, base, vars, env)
    ensures node.IfNode? ==> Emit(node, v, base, vars, env) == ConvertIf(node, v, base, vars, env)
    ensures node.LoopNode? ==> Emit(node, v, base, vars, env) == ConvertLoop(node, v, base, vars, env)
    ensures node.GroupNode? ==> Emit(node, v, base, vars, env) == ConvertGroup(node, v, base, vars, env)
    ensures node.ReturnNode? ==> Emit(node, v, base, vars, env) == ConvertReturn(node, v, base, vars, env)
    ensures node.BreakNode? ==> Emit(node, v, base, vars, env) == ConvertBreak(node, v, base, vars, env)
    ensures node.NextNode? ==> Emit(node, v, base, vars, env) == ConvertNext(node, v, base, vars, env)
  {
    hide Size;
    hide ConvertAssignment;
    hide ConvertBooleanNot;
    hide ConvertBooleanOp;
    hide ConvertBinaryOp;
    hide ConvertCall;
    hide ConvertIf;
    hide ConvertLoop;
    hide ConvertGroup;
    hide ConvertReturn;
    hide ConvertBreak;
    hide ConvertNext;
  }

  lemma LoopIs(node: Node, v: int, base: nat, vars: nat, env: Env, c1: Code, inner: Env, c2: Code)
    requires node.LoopNode? && c1 == Emit(node.first, Temp(v, vars), base, Taken(v, vars), env)
    requires var p := base + |c1.ops|;
             inner == env.(start := base, end := p + 1 + |c2.ops| + 1)
               && c2 == Emit(node.second, Temp(v, vars), p + 1, c1.vars, inner)
    ensures Emit(node, v, base, vars, env) ==
            Code(c1.ops + [BranchOn(node.inverted, Temp(v, vars), inner.end)] + c2.ops + [Branch(base)]
                 + If(v != NO_VAR, LoadNil(v)), c2.vars)
  {
    hide Emit, Size;
    EmitIs(node, v, base, vars, env);
  }

  /** generate: the body of a method with the given number of locals; its result goes to the
      register after them. */
  function MethodCode(group: Node, locals: nat): (c: Code)
    ensures locals < c.vars
  {
    var epilog := Size(group, true, false);
    var c := Emit(group, locals, 0, locals + 1, Env(-1, -1, epilog, locals));
    Code(c.ops + [ReturnOp(locals)], c.vars)
  }
}
