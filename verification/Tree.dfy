/** The part of the syntax tree the code generator's control flow is about, and what a tree means.
    Calls are opaque: they are logged, and what they return depends on everything logged so far. */
module Tree {

  datatype Value = VNil | VFalse | VTrue | VFixnum(n: int) | VObject(id: nat)

  /** Value::test */
  predicate Test(v: Value) {
    v != VNil && v != VFalse
  }

  datatype Event = Event(obj: Value, name: string, args: seq<Value>)

  /** What the world outside does with a call: the trace ends with that call. */
  type Oracle = seq<Event> -> Value

  datatype Leaf = NilLeaf | TrueLeaf | FalseLeaf | SelfLeaf | IntegerLeaf(n: int) | VariableLeaf(loc: nat)

  /** first, second and third are the parts of a node in the order of the tree: left, middle and
      right of an if, the condition and the body of a loop, the receiver of a call.  A unary
      operator is a call without arguments. */
  datatype Node =
    | LeafNode(leaf: Leaf)
    | AssignmentNode(loc: nat, first: Node)
    | BooleanNotNode(first: Node)
    | BooleanOpNode(isOr: bool, first: Node, second: Node)
    | BinaryOpNode(name: string, first: Node, second: Node)
    | CallNode(first: Node, name: string, list: seq<Node>)
    | IfNode(inverted: bool, first: Node, second: Node, third: Node)
    | LoopNode(inverted: bool, first: Node, second: Node)
    | GroupNode(list: seq<Node>)
    | ReturnNode(first: Node)
    | BreakNode(first: Node)
    | NextNode(first: Node)

  /** Locals exist, and break is inside a loop: elsewhere it unwinds to the caller of a closure.  The
      value of a next inside a loop is quiet, since the code drops it. */
  predicate WellFormed(node: Node, locals: nat, inLoop: bool) {
    match node
    case LeafNode(leaf) => leaf.VariableLeaf? ==> leaf.loc < locals
    case AssignmentNode(loc, first) => loc < locals && WellFormed(first, locals, inLoop)
    case BooleanNotNode(first) => WellFormed(first, locals, inLoop)
    case BooleanOpNode(_, first, second) => WellFormed(first, locals, inLoop) && WellFormed(second, locals, inLoop)
    case BinaryOpNode(_, first, second) => WellFormed(first, locals, inLoop) && WellFormed(second, locals, inLoop)
    case CallNode(first, _, list) => WellFormed(first, locals, inLoop) && AllWellFormed(list, locals, inLoop)
    case IfNode(_, first, second, third) =>
      WellFormed(first, locals, inLoop) && WellFormed(second, locals, inLoop) && WellFormed(third, locals, inLoop)
    // break and next in the condition are an outer loop's
    case LoopNode(_, first, second) => WellFormed(first, locals, inLoop) && WellFormed(second, locals, true)
    case GroupNode(list) => AllWellFormed(list, locals, inLoop)
    case ReturnNode(first) => WellFormed(first, locals, inLoop)
    case BreakNode(first) => inLoop && WellFormed(first, locals, inLoop)
    case NextNode(first) => WellFormed(first, locals, inLoop) && (inLoop ==> Quiet(first))
  }

  predicate AllWellFormed(list: seq<Node>, locals: nat, inLoop: bool) {
    |list| > 0 ==> WellFormed(list[0], locals, inLoop) && AllWellFormed(list[1..], locals, inLoop)
  }

  /** No call, assignment, loop or jump. */
  predicate Quiet(node: Node) {
    match node
    case LeafNode(_) => true
    case BooleanNotNode(first) => Quiet(first)
    case BooleanOpNode(_, first, second) => Quiet(first) && Quiet(second)
    case IfNode(_, first, second, third) => Quiet(first) && Quiet(second) && Quiet(third)
    case GroupNode(list) => AllQuiet(list)
    case _ => false
  }

  predicate AllQuiet(list: seq<Node>) {
    |list| > 0 ==> Quiet(list[0]) && AllQuiet(list[1..])
  }

  // ----- meaning ---------------------------------------------------------------------------

  datatype State = State(locals: seq<Value>, trace: seq<Event>)

  /** How the evaluation of a node ends.  Exhausted: the loops went round as often as allowed. */
  datatype Outcome = Normal(value: Value) | Returned(value: Value) | Broke | Nexted(value: Value) | Exhausted

  datatype Arguments = Arguments(values: seq<Value>) | Left(how: Outcome)

  function Truth(b: bool): Value {
    if b then VTrue else VFalse
  }

  function Called(world: Oracle, st: State, obj: Value, name: string, args: seq<Value>): (Outcome, State) {
    var trace := st.trace + [Event(obj, name, args)];
    (Normal(world(trace)), st.(trace := trace))
  }

  function LeafValue(self: Value, leaf: Leaf, st: State): Value {
    match leaf
    case NilLeaf => VNil
    case TrueLeaf => VTrue
    case FalseLeaf => VFalse
    case SelfLeaf => self
    case IntegerLeaf(n) => VFixnum(n)
    case VariableLeaf(loc) => if loc < |st.locals| then st.locals[loc] else VNil
  }

  /** Evaluates a node; rounds bounds how often each loop may go back to its start. */
  function Eval(world: Oracle, self: Value, rounds: nat, node: Node, st: State): (Outcome, State)
    decreases rounds, node, 2
  {
    match node
    case LeafNode(leaf) => (Normal(LeafValue(self, leaf, st)), st)
    case AssignmentNode(_, _) => EvalAssignment(world, self, rounds, node, st)
    case BooleanNotNode(_) => EvalBooleanNot(world, self, rounds, node, st)
    case BooleanOpNode(_, _, _) => EvalBooleanOp(world, self, rounds, node, st)
    case BinaryOpNode(_, _, _) => EvalBinaryOp(world, self, rounds, node, st)
    case CallNode(_, _, _) => EvalCall(world, self, rounds, node, st)
    case IfNode(_, _, _, _) => EvalIf(world, self, rounds, node, st)
    case LoopNode(_, _, _) => EvalLoop(world, self, rounds, node, st)
    case GroupNode(_) => EvalGroup(world, self, rounds, node, st)
    case ReturnNode(_) => EvalReturn(world, self, rounds, node, st)
    case BreakNode(_) => EvalBreak(world, self, rounds, node, st)
    case NextNode(_) => EvalNext(world, self, rounds, node, st)
  }

  function EvalAssignment(world: Oracle, self: Value, rounds: nat, node: Node, st: State): (Outcome, State)
    requires node.AssignmentNode?
    decreases rounds, node, 0
  {
    var (out, st1) := Eval(world, self, rounds, node.first, st);
    if out.Normal? && node.loc < |st1.locals| then (out, st1.(locals := st1.locals[node.loc := out.value]))
    else (out, st1)
  }

  function EvalBooleanNot(world: Oracle, self: Value, rounds: nat, node: Node, st: State): (Outcome, State)
    requires node.BooleanNotNode?
    decreases rounds, node, 0
  {
    var (out, st1) := Eval(world, self, rounds, node.first, st);
    if out.Normal? then (Normal(Truth(!Test(out.value))), st1) else (out, st1)
  }

  function EvalBooleanOp(world: Oracle, self: Value, rounds: nat, node: Node, st: State): (Outcome, State)
    requires node.BooleanOpNode?
    decreases rounds, node, 0
  {
    var (out, st1) := Eval(world, self, rounds, node.first, st);
    if out.Normal? && Test(out.value) != node.isOr then Eval(world, self, rounds, node.second, st1) else (out, st1)
  }

  function EvalBinaryOp(world: Oracle, self: Value, rounds: nat, node: Node, st: State): (Outcome, State)
    requires node.BinaryOpNode?
    decreases rounds, node, 0
  {
    var (out, st1) := Eval(world, self, rounds, node.first, st);
    if !out.Normal? then (out, st1)
    else
      var (arg, st2) := Eval(world, self, rounds, node.second, st1);
      if arg.Normal? then Called(world, st2, out.value, node.name, [arg.value]) else (arg, st2)
  }

  /** Arguments first, then the receiver. */
  function EvalCall(world: Oracle, self: Value, rounds: nat, node: Node, st: State): (Outcome, State)
    requires node.CallNode?
    decreases rounds, node, 0
  {
    var (args, st1) := EvalArguments(world, self, rounds, node.list, st);
    if args.Left? then (args.how, st1)
    else
      var (out, st2) := Eval(world, self, rounds, node.first, st1);
      if out.Normal? then Called(world, st2, out.value, node.name, args.values) else (out, st2)
  }

  function EvalIf(world: Oracle, self: Value, rounds: nat, node: Node, st: State): (Outcome, State)
    requires node.IfNode?
    decreases rounds, node, 0
  {
    var (out, st1) := Eval(world, self, rounds, node.first, st);
    if !out.Normal? then (out, st1)
    else if Test(out.value) != node.inverted then Eval(world, self, rounds, node.second, st1)
    else Eval(world, self, rounds, node.third, st1)
  }

  /** The value is nil, whichever way the loop ends. */
  function EvalLoop(world: Oracle, self: Value, rounds: nat, node: Node, st: State): (Outcome, State)
    requires node.LoopNode?
    decreases rounds, node, 1
  {
    var (out, st1) := Eval(world, self, rounds, node.first, st);
    if !out.Normal? then (out, st1)
    else if Test(out.value) == node.inverted then (Normal(VNil), st1)
    else EvalRound(world, self, rounds, node, st1)
  }

  /** The body once, and then the loop again. */
  function EvalRound(world: Oracle, self: Value, rounds: nat, node: Node, st: State): (Outcome, State)
    requires node.LoopNode?
    decreases rounds, node, 0
  {
    var (round, st1) := Eval(world, self, rounds, node.second, st);
    if round.Normal? || round.Nexted? then
      if rounds == 0 then (Exhausted, st1) else Eval(world, self, rounds - 1, node, st1)
    else if round.Broke? then (Normal(VNil), st1)
    else (round, st1)
  }

  function EvalGroup(world: Oracle, self: Value, rounds: nat, node: Node, st: State): (Outcome, State)
    requires node.GroupNode?
    decreases rounds, node, 0
  {
    if |node.list| == 0 then (Normal(VNil), st) else EvalStatements(world, self, rounds, node.list, st)
  }

  function EvalReturn(world: Oracle, self: Value, rounds: nat, node: Node, st: State): (Outcome, State)
    requires node.ReturnNode?
    decreases rounds, node, 0
  {
    var (out, st1) := Eval(world, self, rounds, node.first, st);
    if out.Normal? then (Returned(out.value), st1) else (out, st1)
  }

  function EvalBreak(world: Oracle, self: Value, rounds: nat, node: Node, st: State): (Outcome, State)
    requires node.BreakNode?
    decreases rounds, node, 0
  {
    var (out, st1) := Eval(world, self, rounds, node.first, st);
    if out.Normal? then (Broke, st1) else (out, st1)
  }

  function EvalNext(world: Oracle, self: Value, rounds: nat, node: Node, st: State): (Outcome, State)
    requires node.NextNode?
    decreases rounds, node, 0
  {
    var (out, st1) := Eval(world, self, rounds, node.first, st);
    if out.Normal? then (Nexted(out.value), st1) else (out, st1)
  }

  /** The statements in order; the value is the last one's. */
  function EvalStatements(world: Oracle, self: Value, rounds: nat, list: seq<Node>, st: State): (Outcome, State)
    requires |list| > 0
    decreases rounds, list, 1
  {
    var (out, st1) := Eval(world, self, rounds, list[0], st);
    if out.Normal? && |list| > 1 then EvalStatements(world, self, rounds, list[1..], st1) else (out, st1)
  }

  function EvalArguments(world: Oracle, self: Value, rounds: nat, list: seq<Node>, st: State): (Arguments, State)
    decreases rounds, list, 1
  {
    if |list| == 0 then (Arguments([]), st)
    else
      var (out, st1) := Eval(world, self, rounds, list[0], st);
      if !out.Normal? then (Left(out), st1)
      else
        var (rest, st2) := EvalArguments(world, self, rounds, list[1..], st1);
        if rest.Left? then (rest, st2) else (Arguments([out.value] + rest.values), st2)
  }

  // ----- what the parts decide ------------------------------------------------------------------

  lemma LeavesStandForThemselves(world: Oracle, self: Value, rounds: nat, st: State)
    ensures Eval(world, self, rounds, LeafNode(NilLeaf), st) == (Normal(VNil), st)
    ensures Eval(world, self, rounds, LeafNode(TrueLeaf), st) == (Normal(VTrue), st)
    ensures Eval(world, self, rounds, LeafNode(FalseLeaf), st) == (Normal(VFalse), st)
    ensures Eval(world, self, rounds, LeafNode(SelfLeaf), st) == (Normal(self), st)
    ensures forall n :: Eval(world, self, rounds, LeafNode(IntegerLeaf(n)), st) == (Normal(VFixnum(n)), st)
    ensures forall loc: nat :: loc < |st.locals| ==>
              Eval(world, self, rounds, LeafNode(VariableLeaf(loc)), st) == (Normal(st.locals[loc]), st)
  {
  }

  /** Nil and false are false, and every other value is true, for if, unless, while, until, not, and
      and or alike. */
  lemma ConditionDecides(world: Oracle, self: Value, rounds: nat, first: Node, second: Node, third: Node, st: State)
    requires Eval(world, self, rounds, first, st).0.Normal?
    ensures var (out, st1) := Eval(world, self, rounds, first, st);
            var no := out.value == VNil || out.value == VFalse;
            var then_, else_ := Eval(world, self, rounds, second, st1), Eval(world, self, rounds, third, st1);
            && Eval(world, self, rounds, IfNode(false, first, second, third), st) == (if no then else_ else then_)
            && Eval(world, self, rounds, IfNode(true, first, second, third), st) == (if no then then_ else else_)
            && (no ==> Eval(world, self, rounds, LoopNode(false, first, second), st) == (Normal(VNil), st1))
            && (!no ==> Eval(world, self, rounds, LoopNode(true, first, second), st) == (Normal(VNil), st1))
            && (!no && then_.0.Returned? ==> Eval(world, self, rounds, LoopNode(false, first, second), st) == then_)
            && (no && then_.0.Returned? ==> Eval(world, self, rounds, LoopNode(true, first, second), st) == then_)
            && Eval(world, self, rounds, BooleanNotNode(first), st) == (Normal(if no then VTrue else VFalse), st1)
            && Eval(world, self, rounds, BooleanOpNode(false, first, second), st) == (if no then (out, st1) else then_)
            && Eval(world, self, rounds, BooleanOpNode(true, first, second), st) == (if no then then_ else (out, st1))
  {
    var if_, unless_ := IfNode(false, first, second, third), IfNode(true, first, second, third);
    assert Eval(world, self, rounds, if_, st) == EvalIf(world, self, rounds, if_, st);
    assert Eval(world, self, rounds, unless_, st) == EvalIf(world, self, rounds, unless_, st);
    var while_, until_ := LoopNode(false, first, second), LoopNode(true, first, second);
    assert Eval(world, self, rounds, while_, st) == EvalLoop(world, self, rounds, while_, st);
    assert Eval(world, self, rounds, until_, st) == EvalLoop(world, self, rounds, until_, st);
    var (_, st1) := Eval(world, self, rounds, first, st);
    assert Eval(world, self, rounds, second, st1).0.Returned? ==>
        EvalRound(world, self, rounds, while_, st1) == Eval(world, self, rounds, second, st1)
        && EvalRound(world, self, rounds, until_, st1) == Eval(world, self, rounds, second, st1);
    var and_, or_ := BooleanOpNode(false, first, second), BooleanOpNode(true, first, second);
    assert Eval(world, self, rounds, and_, st) == EvalBooleanOp(world, self, rounds, and_, st);
    assert Eval(world, self, rounds, or_, st) == EvalBooleanOp(world, self, rounds, or_, st);
    var not_ := BooleanNotNode(first);
    assert Eval(world, self, rounds, not_, st) == EvalBooleanNot(world, self, rounds, not_, st);
  }

  /** An operator is a call of its left operand with its right one; of a call, the argument is evaluated
      first.  The call is logged, and its value is what the world makes of the log. */
  lemma CallsAreLogged(world: Oracle, self: Value, rounds: nat, first: Node, second: Node, name: string, st: State)
    ensures var (left, st1) := Eval(world, self, rounds, first, st);
            var (right, st2) := Eval(world, self, rounds, second, st1);
            left.Normal? && right.Normal? ==>
              var trace := st2.trace + [Event(left.value, name, [right.value])];
              Eval(world, self, rounds, BinaryOpNode(name, first, second), st) ==
              (Normal(world(trace)), State(st2.locals, trace))
    ensures var (arg, st1) := Eval(world, self, rounds, second, st);
            var (obj, st2) := Eval(world, self, rounds, first, st1);
            arg.Normal? && obj.Normal? ==>
              var trace := st2.trace + [Event(obj.value, name, [arg.value])];
              Eval(world, self, rounds, CallNode(first, name, [second]), st) ==
              (Normal(world(trace)), State(st2.locals, trace))
  {
    var operator_, call := BinaryOpNode(name, first, second), CallNode(first, name, [second]);
    assert Eval(world, self, rounds, operator_, st) == EvalBinaryOp(world, self, rounds, operator_, st);
    assert Eval(world, self, rounds, call, st) == EvalCall(world, self, rounds, call, st);
    OneArgument(world, self, rounds, second, st);
  }

  lemma OneArgument(world: Oracle, self: Value, rounds: nat, arg: Node, st: State)
    ensures var (out, st1) := Eval(world, self, rounds, arg, st);
            out.Normal? ==> EvalArguments(world, self, rounds, [arg], st) == (Arguments([out.value]), st1)
  {
    var (out, st1) := Eval(world, self, rounds, arg, st);
    assert [arg][0] == arg && |[arg][1..]| == 0;
    assert EvalArguments(world, self, rounds, [arg][1..], st1) == (Arguments([]), st1);
    if out.Normal? {
      assert [out.value] + [] == [out.value];
    }
  }

  /** A quiet tree has a value, and its evaluation changes nothing. */
  lemma {:induction false} QuietChangesNothing(world: Oracle, self: Value, rounds: nat, node: Node, st: State)
    requires Quiet(node)
    ensures var (out, st1) := Eval(world, self, rounds, node, st); out.Normal? && st1 == st
    decreases node, 0
  {
    match node
    case LeafNode(_) =>
    case BooleanNotNode(first) =>
      QuietChangesNothing(world, self, rounds, first, st);
      assert Eval(world, self, rounds, node, st) == EvalBooleanNot(world, self, rounds, node, st);
    case BooleanOpNode(_, first, second) =>
      QuietChangesNothing(world, self, rounds, first, st);
      QuietChangesNothing(world, self, rounds, second, st);
      assert Eval(world, self, rounds, node, st) == EvalBooleanOp(world, self, rounds, node, st);
    case IfNode(_, first, second, third) =>
      QuietChangesNothing(world, self, rounds, first, st);
      QuietChangesNothing(world, self, rounds, second, st);
      QuietChangesNothing(world, self, rounds, third, st);
      assert Eval(world, self, rounds, node, st) == EvalIf(world, self, rounds, node, st);
    case GroupNode(list) =>
      QuietStatements(world, self, rounds, list, st);
      assert Eval(world, self, rounds, node, st) == EvalGroup(world, self, rounds, node, st);
  }

  /** Literals, self and locals are quiet, and so is what not, and, or, if and groups make of quiet
      trees. */
  lemma SimpleValuesAreQuiet(leaf: Leaf, isOr: bool, first: Node, second: Node, third: Node)
    ensures Quiet(LeafNode(leaf)) && Quiet(GroupNode([]))
    ensures Quiet(first) ==> Quiet(BooleanNotNode(first)) && Quiet(GroupNode([first]))
    ensures Quiet(first) && Quiet(second) ==> Quiet(BooleanOpNode(isOr, first, second))
    ensures Quiet(first) && Quiet(second) && Quiet(third) ==> Quiet(IfNode(isOr, first, second, third))
    ensures Quiet(first) && Quiet(GroupNode([second])) ==> Quiet(GroupNode([first, second]))
  {
    assert [first][0] == first && |[first][1..]| == 0;
    assert [first, second][0] == first && [first, second][1..] == [second];
  }

  lemma {:induction false} QuietStatements(world: Oracle, self: Value, rounds: nat, list: seq<Node>, st: State)
    requires AllQuiet(list)
    ensures |list| > 0 ==> var (out, st1) := EvalStatements(world, self, rounds, list, st); out.Normal? && st1 == st
    decreases list, 1
  {
    if |list| > 0 {
      QuietChangesNothing(world, self, rounds, list[0], st);
      QuietStatements(world, self, rounds, list[1..], st);
    }
  }

  /** A whole method body returns what it evaluates to, or what it returns or passes to next. */
  function Method(world: Oracle, self: Value, rounds: nat, group: Node, st: State): (Outcome, State) {
    var (out, st1) := Eval(world, self, rounds, group, st);
    if out.Normal? || out.Nexted? then (Returned(out.value), st1) else (out, st1)
  }
}
