/** The code generator as it runs: instructions are appended, branches remember a label, and the
    labels' positions are patched in at the end. */
module Generator {
  import opened Tree
  import opened Vm
  import opened CodeGen

  /** The labels of the loop a break or next belongs to. */
  datatype Target = NoLoop | Loop(start: nat, end: nat)

  /** What code generation has produced so far; targets[i] is the label instruction i branches to,
      or -1. */
  datatype Output = Output(ops: seq<Instr>, targets: seq<int>, labels: seq<nat>, vars: nat)

  /** The labels and the register every part of a method uses. */
  datatype Method = Method(body: nat, epilog: nat, returnVar: int)

  function WithPos(op: Instr, pos: int): Instr {
    match op
    case Branch(_) => Branch(pos)
    case BranchIf(v, _) => BranchIf(v, pos)
    case BranchUnless(v, _) => BranchUnless(v, pos)
    case _ => op
  }

  function ResolveOp(op: Instr, target: int, fin: seq<nat>): Instr {
    if 0 <= target < |fin| then WithPos(op, fin[target]) else op
  }

  /** The instructions with their labels' positions. */
  function Resolve(ops: seq<Instr>, targets: seq<int>, fin: seq<nat>): (r: seq<Instr>)
    requires |ops| == |targets|
    ensures |r| == |ops| && forall i {:trigger r[i]} :: 0 <= i < |ops| ==> r[i] == ResolveOp(ops[i], targets[i], fin)
  {
    seq(|ops|, i requires 0 <= i < |ops| => ResolveOp(ops[i], targets[i], fin))
  }

  predicate Sane(s: Output) {
    |s.targets| == |s.ops|
  }

  /** s1 continues s0. */
  predicate Longer(s0: Output, s1: Output) {
    Sane(s0) && Sane(s1) && |s0.ops| <= |s1.ops| && s1.ops[..|s0.ops|] == s0.ops && s1.targets[..|s0.ops|] == s0.targets
  }

  /** What s1 has that s0 has not. */
  function Piece(s0: Output, s1: Output, fin: seq<nat>): (r: seq<Instr>)
    requires Longer(s0, s1)
    ensures |r| == |s1.ops| - |s0.ops|
  {
    Resolve(s1.ops[|s0.ops|..], s1.targets[|s0.ops|..], fin)
  }

  lemma PieceChain(s0: Output, s1: Output, s2: Output, fin: seq<nat>)
    requires Longer(s0, s1) && Longer(s1, s2)
    ensures Longer(s0, s2) && Piece(s0, s2, fin) == Piece(s0, s1, fin) + Piece(s1, s2, fin)
  {
    assert s1.ops[..|s0.ops|] == s2.ops[..|s1.ops|][..|s0.ops|] == s2.ops[..|s0.ops|];
    assert s1.targets[..|s0.ops|] == s2.targets[..|s1.ops|][..|s0.ops|] == s2.targets[..|s0.ops|];
    assert forall i {:trigger s1.ops[i]} :: 0 <= i < |s1.ops| ==> s2.ops[i] == s2.ops[..|s1.ops|][i] == s1.ops[i];
    assert forall i {:trigger s1.targets[i]} ::
      0 <= i < |s1.ops| ==> s2.targets[i] == s2.targets[..|s1.ops|][i] == s1.targets[i];
  }

  /** The positions in fin are those labels from number lo on have now. */
  predicate Final(fin: seq<nat>, lo: nat, labels: seq<nat>) {
    |labels| <= |fin| && forall l {:trigger fin[l]} {:trigger labels[l]} :: lo <= l < |labels| ==> fin[l] == labels[l]
  }

  /** No label of before is moved, apart from the method's body label. */
  predicate LabelsKept(labels0: seq<nat>, labels1: seq<nat>, body: nat) {
    |labels0| <= |labels1| && forall l {:trigger labels1[l]} ::
      0 <= l < |labels0| && l != body ==> labels1[l] == labels0[l]
  }

  function EnvOf(target: Target, method_: Method, fin: seq<nat>): Env
    requires method_.epilog < |fin| && (target.Loop? ==> target.start < |fin| && target.end < |fin|)
  {
    if target.NoLoop? then Env(-1, -1, fin[method_.epilog], method_.returnVar)
    else Env(fin[target.start], fin[target.end], fin[method_.epilog], method_.returnVar)
  }

  predicate Exist(s: Output, method_: Method, target: Target) {
    && method_.body < |s.labels| && method_.epilog < |s.labels|
    && (target.Loop? ==> target.start < |s.labels| && target.end < |s.labels|)
  }

  /** From s0 to s1 the generator has emitted code, wherever the labels will end up. */
  ghost predicate Emitted(s0: Output, s1: Output, method_: Method, target: Target, node: Node, v: int) {
    && Exist(s0, method_, target) && Longer(s0, s1) && |s0.labels| <= |s1.labels|
    && forall fin: seq<nat> {:trigger Final(fin, |s0.labels|, s1.labels)} :: Final(fin, |s0.labels|, s1.labels) ==>
         Code(Piece(s0, s1, fin), s1.vars) == Emit(node, v, |s0.ops|, s0.vars, EnvOf(target, method_, fin))
  }

  ghost predicate EmittedStatements(s0: Output, s1: Output, method_: Method, target: Target, list: seq<Node>, v: int) {
    && Exist(s0, method_, target) && Longer(s0, s1) && |s0.labels| <= |s1.labels|
    && forall fin: seq<nat> {:trigger Final(fin, |s0.labels|, s1.labels)} :: Final(fin, |s0.labels|, s1.labels) ==>
         Code(Piece(s0, s1, fin), s1.vars) == Statements(list, v, |s0.ops|, s0.vars, EnvOf(target, method_, fin))
  }

  ghost predicate EmittedArguments(s0: Output, s1: Output, method_: Method, target: Target, list: seq<Node>, v: nat) {
    && Exist(s0, method_, target) && Longer(s0, s1) && |s0.labels| <= |s1.labels|
    && forall fin: seq<nat> {:trigger Final(fin, |s0.labels|, s1.labels)} :: Final(fin, |s0.labels|, s1.labels) ==>
         Code(Piece(s0, s1, fin), s1.vars) == CallArgs(list, v, |s0.ops|, s0.vars, EnvOf(target, method_, fin))
  }

  /** One more instruction, possibly with a label to branch to. */
  predicate Appended(s0: Output, s1: Output, op: Instr, l: int) {
    s1.ops == s0.ops + [op] && s1.targets == s0.targets + [l]
  }

  predicate SameCode(s0: Output, s1: Output) {
    s1.ops == s0.ops && s1.targets == s0.targets
  }

  lemma AppendedPiece(s0: Output, s1: Output, op: Instr, l: int, fin: seq<nat>)
    requires Sane(s0) && Appended(s0, s1, op, l)
    ensures Longer(s0, s1) && Piece(s0, s1, fin) == [ResolveOp(op, l, fin)]
  {
  }

  lemma SamePiece(s0: Output, s1: Output, s2: Output, fin: seq<nat>)
    requires SameCode(s0, s1) && Longer(s1, s2)
    ensures Longer(s0, s2) && Piece(s0, s2, fin) == Piece(s1, s2, fin)
  {
  }

  lemma SameEnd(s0: Output, s1: Output, s2: Output, fin: seq<nat>)
    requires Longer(s0, s1) && SameCode(s1, s2)
    ensures Longer(s0, s2) && Piece(s0, s2, fin) == Piece(s0, s1, fin)
  {
  }

  /** More code, then one instruction. */
  lemma PieceThen(s0: Output, s1: Output, s2: Output, op: Instr, l: int, fin: seq<nat>)
    requires Longer(s0, s1) && Appended(s1, s2, op, l)
    ensures Longer(s0, s2) && Piece(s0, s2, fin) == Piece(s0, s1, fin) + [ResolveOp(op, l, fin)]
  {
    AppendedPiece(s1, s2, op, l, fin);
    PieceChain(s0, s1, s2, fin);
  }

  lemma EmittedFor(s0: Output, s1: Output, method_: Method, target: Target, node: Node, v: int, fin: seq<nat>)
    requires Emitted(s0, s1, method_, target, node, v) && Final(fin, |s0.labels|, s1.labels)
    ensures Exist(s0, method_, target) && |s0.labels| <= |fin| && Longer(s0, s1)
    ensures Code(Piece(s0, s1, fin), s1.vars) == Emit(node, v, |s0.ops|, s0.vars, EnvOf(target, method_, fin))
  {
  }

  /** Labels that stayed where they were are final too. */
  lemma FinalIn(fin: seq<nat>, lo: nat, labels: seq<nat>, lo1: nat, labels1: seq<nat>)
    requires Final(fin, lo, labels) && lo <= lo1 && |labels1| <= |labels|
    requires forall l {:trigger labels1[l]} :: lo1 <= l < |labels1| ==> labels1[l] == labels[l]
    ensures Final(fin, lo1, labels1)
  {
  }

  lemma KeptCount(labels0: seq<nat>, labels1: seq<nat>, body: nat)
    requires LabelsKept(labels0, labels1, body)
    ensures |labels0| <= |labels1|
  {
  }

  lemma EmittedWhen(s0: Output, s1: Output, method_: Method, target: Target, node: Node, v: int)
    requires Exist(s0, method_, target) && |s0.labels| <= |s1.labels| && Longer(s0, s1)
    requires forall fin: seq<nat> {:trigger Final(fin, |s0.labels|, s1.labels)} ::
      Final(fin, |s0.labels|, s1.labels) ==>
               Code(Piece(s0, s1, fin), s1.vars) == Emit(node, v, |s0.ops|, s0.vars, EnvOf(target, method_, fin))
    ensures Emitted(s0, s1, method_, target, node, v)
  {
  }

  lemma ResolveBranch(b: bool, v: int, l: nat, fin: seq<nat>)
    requires l < |fin|
    ensures ResolveOp(BranchOn(b, v, 0), l, fin) == BranchOn(b, v, fin[l])
    ensures ResolveOp(Branch(0), l, fin) == Branch(fin[l])
  {
  }

  lemma IfEmitted(s0: Output, s1: Output, s2: Output, s3: Output, s4: Output, s5: Output, s6: Output, s7: Output,
                  method_: Method, target: Target, node: Node, v: int, other: nat, end: nat, fin: seq<nat>)
    requires node.IfNode? && SameCode(s0, s1) && s1.vars == Taken(v, s0.vars) && s3.vars == s2.vars
      && s5.vars == s4.vars
    requires Emitted(s1, s2, method_, target, node.first, Temp(v, s0.vars)) && Final(fin, |s1.labels|, s2.labels)
    requires Appended(s2, s3, BranchOn(node.inverted, Temp(v, s0.vars), 0), other)
    requires Emitted(s3, s4, method_, target, node.second, v) && Final(fin, |s3.labels|, s4.labels)
    requires Appended(s4, s5, Branch(0), end)
    requires Emitted(s5, s6, method_, target, node.third, v) && Final(fin, |s5.labels|, s6.labels)
    requires |s0.labels| <= |fin| && other < |fin| && end < |fin| && fin[other] == |s5.ops| && fin[end] == |s6.ops|
      && Exist(s0, method_, target)
    requires SameCode(s6, s7) && s7.vars == s6.vars
    ensures Longer(s0, s7)
    ensures Code(Piece(s0, s7, fin), s7.vars) == Emit(node, v, |s0.ops|, s0.vars, EnvOf(target, method_, fin))
  {
    hide Emit, Size, Piece, Longer, Final, Emitted, ResolveOp, EnvOf, BranchOn;
    EmittedFor(s1, s2, method_, target, node.first, Temp(v, s0.vars), fin);
    EmittedFor(s3, s4, method_, target, node.second, v, fin);
    EmittedFor(s5, s6, method_, target, node.third, v, fin);
    EmitIs(node, v, |s0.ops|, s0.vars, EnvOf(target, method_, fin));
    SamePiece(s0, s1, s2, fin);
    PieceThen(s0, s2, s3, BranchOn(node.inverted, Temp(v, s0.vars), 0), other, fin);
    ResolveBranch(node.inverted, Temp(v, s0.vars), other, fin);
    PieceChain(s0, s3, s4, fin);
    PieceThen(s0, s4, s5, Branch(0), end, fin);
    ResolveBranch(true, 0, end, fin);
    PieceChain(s0, s5, s6, fin);
    SameEnd(s0, s6, s7, fin);
  }

  /** The labels of an if are those after the ones there were; both are placed when it is done. */
  lemma IfDone(s0: Output, s1: Output, s2: Output, s3: Output, s4: Output, s5: Output, s6: Output, s7: Output,
               method_: Method, target: Target, node: Node, v: int)
    requires node.IfNode? && Exist(s0, method_, target) && SameCode(s0, s1) && s1.labels == s0.labels + [0, 0]
      && s1.vars == Taken(v, s0.vars)
    requires Emitted(s1, s2, method_, target, node.first, Temp(v, s0.vars))
      && LabelsKept(s1.labels, s2.labels, method_.body)
    requires Appended(s2, s3, BranchOn(node.inverted, Temp(v, s0.vars), 0), |s0.labels|) && s3.labels == s2.labels
      && s3.vars == s2.vars
    requires Emitted(s3, s4, method_, target, node.second, v) && LabelsKept(s3.labels, s4.labels, method_.body)
    requires Appended(s4, s5, Branch(0), |s0.labels| + 1) && |s0.labels| + 1 < |s4.labels| && s5.vars == s4.vars
      && s5.labels == s4.labels[|s0.labels| := |s5.ops|]
    requires Emitted(s5, s6, method_, target, node.third, v) && LabelsKept(s5.labels, s6.labels, method_.body)
    requires SameCode(s6, s7) && |s0.labels| + 1 < |s6.labels| && s7.vars == s6.vars
      && s7.labels == s6.labels[|s0.labels| + 1 := |s6.ops|]
    ensures Emitted(s0, s7, method_, target, node, v) && LabelsKept(s0.labels, s7.labels, method_.body)
  {
    hide Emit, Size, Longer, Piece, Emitted, Temp, Taken, BranchOn, EnvOf;
    forall fin: seq<nat> {:trigger Final(fin, |s0.labels|, s7.labels)} | Final(fin, |s0.labels|, s7.labels)
      ensures Longer(s0, s7)
      ensures Code(Piece(s0, s7, fin), s7.vars) == Emit(node, v, |s0.ops|, s0.vars, EnvOf(target, method_, fin))
    {
      FinalIn(fin, |s0.labels|, s7.labels, |s1.labels|, s2.labels);
      FinalIn(fin, |s0.labels|, s7.labels, |s3.labels|, s4.labels);
      FinalIn(fin, |s0.labels|, s7.labels, |s5.labels|, s6.labels);
      IfEmitted(s0, s1, s2, s3, s4, s5, s6, s7, method_, target, node, v, |s0.labels|, |s0.labels| + 1, fin);
    }
    assert Final(s7.labels, |s0.labels|, s7.labels);
    EmittedWhen(s0, s7, method_, target, node, v);
  }

  lemma Unlabelled(op: Instr, fin: seq<nat>)
    ensures ResolveOp(op, -1, fin) == op
  {
  }

  lemma EmittedArgumentsFor(s0: Output, s1: Output, method_: Method, target: Target, list: seq<Node>, v: nat,
                            fin: seq<nat>)
    requires EmittedArguments(s0, s1, method_, target, list, v) && Final(fin, |s0.labels|, s1.labels)
    ensures Exist(s0, method_, target) && |s0.labels| <= |fin| && Longer(s0, s1)
    ensures Code(Piece(s0, s1, fin), s1.vars) == CallArgs(list, v, |s0.ops|, s0.vars, EnvOf(target, method_, fin))
  {
  }

  lemma EmittedStatementsFor(s0: Output, s1: Output, method_: Method, target: Target, list: seq<Node>, v: int,
                             fin: seq<nat>)
    requires EmittedStatements(s0, s1, method_, target, list, v) && Final(fin, |s0.labels|, s1.labels)
    ensures Exist(s0, method_, target) && |s0.labels| <= |fin| && Longer(s0, s1)
    ensures Code(Piece(s0, s1, fin), s1.vars) == Statements(list, v, |s0.ops|, s0.vars, EnvOf(target, method_, fin))
  {
  }

  lemma AssignmentEmitted(s0: Output, s1: Output, s2: Output, s3: Output, s4: Output,
                  method_: Method, target: Target, node: Node, v: int, fin: seq<nat>)
    requires node.AssignmentNode? && |s0.labels| <= |fin| && Exist(s0, method_, target)
    requires SameCode(s0, s1) && s1.vars == Taken(v, s0.vars) && s3.vars == s2.vars && s4.vars == s3.vars
    requires Emitted(s1, s2, method_, target, node.first, Temp(v, s0.vars)) && Final(fin, |s1.labels|, s2.labels)
    requires Appended(s2, s3, Move(node.loc, Temp(v, s0.vars)), -1)
    requires if v != NO_VAR then Appended(s3, s4, Move(v, Temp(v, s0.vars)), -1) else SameCode(s3, s4)
    ensures Longer(s0, s4)
    ensures Code(Piece(s0, s4, fin), s4.vars) == Emit(node, v, |s0.ops|, s0.vars, EnvOf(target, method_, fin))
  {
    hide Emit, Size, Piece, Longer, Final, Emitted, ResolveOp;
    EmitIs(node, v, |s0.ops|, s0.vars, EnvOf(target, method_, fin));
    EmittedFor(s1, s2, method_, target, node.first, Temp(v, s0.vars), fin);
    SamePiece(s0, s1, s2, fin);
    PieceThen(s0, s2, s3, Move(node.loc, Temp(v, s0.vars)), -1, fin);
    Unlabelled(Move(node.loc, Temp(v, s0.vars)), fin);
    Unlabelled(Move(v, Temp(v, s0.vars)), fin);
    if v != NO_VAR {
      PieceThen(s0, s3, s4, Move(v, Temp(v, s0.vars)), -1, fin);
    } else {
      SameEnd(s0, s3, s4, fin);
    }
  }

  lemma BooleanNotEmitted(s0: Output, s1: Output, s2: Output, s3: Output, s4: Output, s5: Output,
                  method_: Method, target: Target, node: Node, v: int, isTrue: nat, end: nat, fin: seq<nat>)
    requires node.BooleanNotNode? && |s0.labels| <= |fin| && Exist(s0, method_, target)
    requires v != NO_VAR && s2.vars == s1.vars && s3.vars == s2.vars && s4.vars == s3.vars && s5.vars == s4.vars
    requires Emitted(s0, s1, method_, target, node.first, v) && Final(fin, |s0.labels|, s1.labels)
    requires Appended(s1, s2, BranchOn(true, v, 0), isTrue) && Appended(s2, s3, LoadTrue(v), -1)
      && Appended(s3, s4, Branch(0), end)
    requires Appended(s4, s5, LoadFalse(v), -1)
    requires isTrue < |fin| && end < |fin| && fin[isTrue] == |s4.ops| && fin[end] == |s5.ops|
    ensures Longer(s0, s5)
    ensures Code(Piece(s0, s5, fin), s5.vars) == Emit(node, v, |s0.ops|, s0.vars, EnvOf(target, method_, fin))
  {
    hide Emit, Size, Piece, Longer, Final, Emitted, ResolveOp;
    EmitIs(node, v, |s0.ops|, s0.vars, EnvOf(target, method_, fin));
    EmittedFor(s0, s1, method_, target, node.first, v, fin);
    PieceThen(s0, s1, s2, BranchOn(true, v, 0), isTrue, fin);
    ResolveBranch(true, v, isTrue, fin);
    PieceThen(s0, s2, s3, LoadTrue(v), -1, fin);
    PieceThen(s0, s3, s4, Branch(0), end, fin);
    ResolveBranch(true, v, end, fin);
    PieceThen(s0, s4, s5, LoadFalse(v), -1, fin);
    Unlabelled(LoadTrue(v), fin);
    Unlabelled(LoadFalse(v), fin);
  }

  lemma BooleanOpEmitted(s0: Output, s1: Output, s2: Output, s3: Output, s4: Output, s5: Output,
                  method_: Method, target: Target, node: Node, v: int, end: nat, fin: seq<nat>)
    requires node.BooleanOpNode? && |s0.labels| <= |fin| && Exist(s0, method_, target)
    requires SameCode(s0, s1) && s1.vars == Taken(v, s0.vars) && s3.vars == s2.vars
    requires Emitted(s1, s2, method_, target, node.first, Temp(v, s0.vars)) && Final(fin, |s1.labels|, s2.labels)
    requires Appended(s2, s3, BranchOn(node.isOr, Temp(v, s0.vars), 0), end)
    requires Emitted(s3, s4, method_, target, node.second, v) && Final(fin, |s3.labels|, s4.labels)
    requires end < |fin| && fin[end] == |s4.ops|
    requires SameCode(s4, s5) && s5.vars == s4.vars
    ensures Longer(s0, s5)
    ensures Code(Piece(s0, s5, fin), s5.vars) == Emit(node, v, |s0.ops|, s0.vars, EnvOf(target, method_, fin))
  {
    hide Emit, Size, Piece, Longer, Final, Emitted, ResolveOp;
    EmitIs(node, v, |s0.ops|, s0.vars, EnvOf(target, method_, fin));
    EmittedFor(s1, s2, method_, target, node.first, Temp(v, s0.vars), fin);
    EmittedFor(s3, s4, method_, target, node.second, v, fin);
    SamePiece(s0, s1, s2, fin);
    PieceThen(s0, s2, s3, BranchOn(node.isOr, Temp(v, s0.vars), 0), end, fin);
    ResolveBranch(node.isOr, Temp(v, s0.vars), end, fin);
    PieceChain(s0, s3, s4, fin);
    SameEnd(s0, s4, s5, fin);
  }

  lemma BinaryOpEmitted(s0: Output, s1: Output, s2: Output, s3: Output, s4: Output, s5: Output,
                  method_: Method, target: Target, node: Node, v: int, fin: seq<nat>)
    requires node.BinaryOpNode? && |s0.labels| <= |fin| && Exist(s0, method_, target)
    requires SameCode(s0, s1) && s1.vars == Taken(v, s0.vars) && SameCode(s2, s3) && s3.vars == s2.vars + 1
      && s5.vars == s4.vars
    requires Emitted(s1, s2, method_, target, node.first, Temp(v, s0.vars)) && Final(fin, |s1.labels|, s2.labels)
    requires Emitted(s3, s4, method_, target, node.second, s2.vars) && Final(fin, |s3.labels|, s4.labels)
    requires Appended(s4, s5, Call(v, Temp(v, s0.vars), node.name, 1, s2.vars), -1)
    ensures Longer(s0, s5)
    ensures Code(Piece(s0, s5, fin), s5.vars) == Emit(node, v, |s0.ops|, s0.vars, EnvOf(target, method_, fin))
  {
    hide Emit, Size, Piece, Longer, Final, Emitted, ResolveOp;
    EmitIs(node, v, |s0.ops|, s0.vars, EnvOf(target, method_, fin));
    EmittedFor(s1, s2, method_, target, node.first, Temp(v, s0.vars), fin);
    EmittedFor(s3, s4, method_, target, node.second, s2.vars, fin);
    SamePiece(s0, s1, s2, fin);
    SamePiece(s2, s3, s4, fin);
    PieceChain(s0, s2, s4, fin);
    PieceThen(s0, s4, s5, Call(v, Temp(v, s0.vars), node.name, 1, s2.vars), -1, fin);
    Unlabelled(Call(v, Temp(v, s0.vars), node.name, 1, s2.vars), fin);
  }

  lemma CallEmitted(s0: Output, s1: Output, s2: Output, s3: Output, s4: Output, s5: Output,
                  method_: Method, target: Target, node: Node, v: int, fin: seq<nat>)
    requires node.CallNode? && |s0.labels| <= |fin| && Exist(s0, method_, target)
    requires SameCode(s0, s1) && s1.vars == s0.vars + |node.list| && SameCode(s2, s3) && s3.vars == Taken(v, s2.vars)
      && s5.vars == s4.vars
    requires EmittedArguments(s1, s2, method_, target, node.list, s0.vars) && Final(fin, |s1.labels|, s2.labels)
    requires Emitted(s3, s4, method_, target, node.first, Temp(v, s2.vars)) && Final(fin, |s3.labels|, s4.labels)
    requires Appended(s4, s5, Call(v, Temp(v, s2.vars), node.name, |node.list|,
                                   if |node.list| > 0 then s0.vars else NO_VAR), -1)
    ensures Longer(s0, s5)
    ensures Code(Piece(s0, s5, fin), s5.vars) == Emit(node, v, |s0.ops|, s0.vars, EnvOf(target, method_, fin))
  {
    hide Emit, Size, Piece, Longer, Final, Emitted, ResolveOp;
    EmitIs(node, v, |s0.ops|, s0.vars, EnvOf(target, method_, fin));
    hide CallArgs;
    EmittedArgumentsFor(s1, s2, method_, target, node.list, s0.vars, fin);
    EmittedFor(s3, s4, method_, target, node.first, Temp(v, s2.vars), fin);
    SamePiece(s0, s1, s2, fin);
    SamePiece(s2, s3, s4, fin);
    PieceChain(s0, s2, s4, fin);
    PieceThen(s0, s4, s5, Call(v, Temp(v, s2.vars), node.name, |node.list|,
                               if |node.list| > 0 then s0.vars else NO_VAR), -1, fin);
    Unlabelled(Call(v, Temp(v, s2.vars), node.name, |node.list|, if |node.list| > 0 then s0.vars else NO_VAR), fin);
  }

  lemma LoopEmitted(s0: Output, s1: Output, s2: Output, s3: Output, s4: Output, s5: Output, s6: Output,
                  method_: Method, target: Target, node: Node, v: int, start: nat, end: nat, fin: seq<nat>)
    requires node.LoopNode? && |s0.labels| <= |fin| && Exist(s0, method_, target)
    requires SameCode(s0, s1) && s1.vars == Taken(v, s0.vars) && s3.vars == s2.vars && s5.vars == s4.vars
      && s6.vars == s5.vars
    requires start < |fin| && end < |fin| && fin[start] == |s0.ops| && fin[end] == |s5.ops|
    requires Emitted(s1, s2, method_, target, node.first, Temp(v, s0.vars)) && Final(fin, |s1.labels|, s2.labels)
    requires Appended(s2, s3, BranchOn(node.inverted, Temp(v, s0.vars), 0), end)
    requires Emitted(s3, s4, method_, Loop(start, end), node.second, Temp(v, s0.vars))
      && Final(fin, |s3.labels|, s4.labels)
    requires Appended(s4, s5, Branch(0), start)
    requires if v != NO_VAR then Appended(s5, s6, LoadNil(v), -1) else SameCode(s5, s6)
    ensures Longer(s0, s6)
    ensures Code(Piece(s0, s6, fin), s6.vars) == Emit(node, v, |s0.ops|, s0.vars, EnvOf(target, method_, fin))
  {
    hide Emit, Size, Piece, Longer, Final, Emitted, ResolveOp;
    var t := Temp(v, s0.vars);
    EmittedFor(s1, s2, method_, target, node.first, t, fin);
    EmittedFor(s3, s4, method_, Loop(start, end), node.second, t, fin);
    SamePiece(s0, s1, s2, fin);
    PieceThen(s0, s2, s3, BranchOn(node.inverted, t, 0), end, fin);
    ResolveBranch(node.inverted, t, end, fin);
    PieceChain(s0, s3, s4, fin);
    PieceThen(s0, s4, s5, Branch(0), start, fin);
    ResolveBranch(true, v, start, fin);
    var last := If(v != NO_VAR, LoadNil(v));
    assert Longer(s0, s6) && Piece(s0, s6, fin) == Piece(s0, s5, fin) + last by {
      Unlabelled(LoadNil(v), fin);
      if v != NO_VAR {
        PieceThen(s0, s5, s6, LoadNil(v), -1, fin);
      } else {
        SameEnd(s0, s5, s6, fin);
      }
    }
    LoopIs(node, v, |s0.ops|, s0.vars, EnvOf(target, method_, fin), Code(Piece(s1, s2, fin), s2.vars),
           EnvOf(Loop(start, end), method_, fin), Code(Piece(s3, s4, fin), s4.vars));
  }

  /** The labels of a loop are those after the ones there were: the first is placed at its start, the
      second at its end; the method's body label may move meanwhile. */
  lemma LoopDone(s0: Output, s1: Output, s2: Output, s3: Output, s4: Output, s5: Output, s6: Output,
                 method_: Method, target: Target, node: Node, v: int)
    requires node.LoopNode? && Exist(s0, method_, target) && SameCode(s0, s1) && s1.vars == Taken(v, s0.vars)
      && s1.labels == s0.labels + [|s0.ops|, 0]
    requires Emitted(s1, s2, method_, target, node.first, Temp(v, s0.vars))
      && LabelsKept(s1.labels, s2.labels, method_.body)
    requires Appended(s2, s3, BranchOn(node.inverted, Temp(v, s0.vars), 0), |s0.labels| + 1) && s3.labels == s2.labels
      && s3.vars == s2.vars
    requires Emitted(s3, s4, method_, Loop(|s0.labels|, |s0.labels| + 1), node.second, Temp(v, s0.vars))
      && LabelsKept(s3.labels, s4.labels, method_.body)
    requires Appended(s4, s5, Branch(0), |s0.labels|) && |s0.labels| + 1 < |s4.labels| && s5.vars == s4.vars
      && s5.labels == s4.labels[method_.body := |s4.ops|][|s0.labels| + 1 := |s5.ops|]
    requires if v != NO_VAR then Appended(s5, s6, LoadNil(v), -1) else SameCode(s5, s6)
    requires s6.vars == s5.vars && s6.labels == s5.labels
    ensures Emitted(s0, s6, method_, target, node, v) && LabelsKept(s0.labels, s6.labels, method_.body)
  {
    hide Emit, Size, Longer, Piece, Emitted, Temp, Taken, BranchOn, EnvOf;
    forall fin: seq<nat> {:trigger Final(fin, |s0.labels|, s6.labels)} | Final(fin, |s0.labels|, s6.labels)
      ensures Longer(s0, s6)
      ensures Code(Piece(s0, s6, fin), s6.vars) == Emit(node, v, |s0.ops|, s0.vars, EnvOf(target, method_, fin))
    {
      FinalIn(fin, |s0.labels|, s6.labels, |s1.labels|, s2.labels);
      FinalIn(fin, |s0.labels|, s6.labels, |s3.labels|, s4.labels);
      LoopEmitted(s0, s1, s2, s3, s4, s5, s6, method_, target, node, v, |s0.labels|, |s0.labels| + 1, fin);
    }
    assert Final(s6.labels, |s0.labels|, s6.labels);
    EmittedWhen(s0, s6, method_, target, node, v);
  }

  lemma ReturnEmitted(s0: Output, s1: Output, s2: Output, s3: Output, s4: Output, s5: Output,
                  method_: Method, target: Target, node: Node, v: int, fin: seq<nat>)
    requires node.ReturnNode? && |s0.labels| <= |fin| && Exist(s0, method_, target)
    requires SameCode(s0, s1) && s1.vars == Taken(v, s0.vars) && s3.vars == s2.vars && s4.vars == s3.vars
      && SameCode(s4, s5) && s5.vars == s4.vars
    requires Emitted(s1, s2, method_, target, node.first, Temp(v, s0.vars)) && Final(fin, |s1.labels|, s2.labels)
    requires Appended(s2, s3, Move(method_.returnVar, Temp(v, s0.vars)), -1)
      && Appended(s3, s4, Branch(0), method_.epilog)
    ensures Longer(s0, s5)
    ensures Code(Piece(s0, s5, fin), s5.vars) == Emit(node, v, |s0.ops|, s0.vars, EnvOf(target, method_, fin))
  {
    hide Emit, Size, Piece, Longer, Final, Emitted, ResolveOp;
    EmitIs(node, v, |s0.ops|, s0.vars, EnvOf(target, method_, fin));
    EmittedFor(s1, s2, method_, target, node.first, Temp(v, s0.vars), fin);
    SamePiece(s0, s1, s2, fin);
    PieceThen(s0, s2, s3, Move(method_.returnVar, Temp(v, s0.vars)), -1, fin);
    Unlabelled(Move(method_.returnVar, Temp(v, s0.vars)), fin);
    PieceThen(s0, s3, s4, Branch(0), method_.epilog, fin);
    ResolveBranch(true, v, method_.epilog, fin);
    SameEnd(s0, s4, s5, fin);
  }

  lemma NextEmitted(s0: Output, s1: Output, s2: Output, s3: Output, s4: Output, s5: Output,
                  method_: Method, target: Target, node: Node, v: int, fin: seq<nat>)
    requires node.NextNode? && |s0.labels| <= |fin| && Exist(s0, method_, target)
    requires target.NoLoop?
    requires SameCode(s0, s1) && s1.vars == Taken(v, s0.vars) && s3.vars == s2.vars && s4.vars == s3.vars
      && SameCode(s4, s5) && s5.vars == s4.vars
    requires Emitted(s1, s2, method_, target, node.first, Temp(v, s0.vars)) && Final(fin, |s1.labels|, s2.labels)
    requires Appended(s2, s3, Move(method_.returnVar, Temp(v, s0.vars)), -1)
      && Appended(s3, s4, Branch(0), method_.epilog)
    ensures Longer(s0, s5)
    ensures Code(Piece(s0, s5, fin), s5.vars) == Emit(node, v, |s0.ops|, s0.vars, EnvOf(target, method_, fin))
  {
    hide Emit, Size, Piece, Longer, Final, Emitted, ResolveOp;
    EmitIs(node, v, |s0.ops|, s0.vars, EnvOf(target, method_, fin));
    EmittedFor(s1, s2, method_, target, node.first, Temp(v, s0.vars), fin);
    SamePiece(s0, s1, s2, fin);
    PieceThen(s0, s2, s3, Move(method_.returnVar, Temp(v, s0.vars)), -1, fin);
    Unlabelled(Move(method_.returnVar, Temp(v, s0.vars)), fin);
    PieceThen(s0, s3, s4, Branch(0), method_.epilog, fin);
    ResolveBranch(true, v, method_.epilog, fin);
    SameEnd(s0, s4, s5, fin);
  }

  lemma BreakEmitted(s0: Output, s1: Output, s2: Output, s3: Output,
                  method_: Method, target: Target, node: Node, v: int, fin: seq<nat>)
    requires node.BreakNode? && |s0.labels| <= |fin| && Exist(s0, method_, target)
    requires SameCode(s0, s1) && s1.vars == Taken(v, s0.vars) && s3.vars == s2.vars
    requires Emitted(s1, s2, method_, target, node.first, Temp(v, s0.vars)) && Final(fin, |s1.labels|, s2.labels)
    requires if target.Loop? then Appended(s2, s3, Branch(0), target.end)
      else Appended(s2, s3, UnwindBreak(Temp(v, s0.vars)), -1)
    ensures Longer(s0, s3)
    ensures Code(Piece(s0, s3, fin), s3.vars) == Emit(node, v, |s0.ops|, s0.vars, EnvOf(target, method_, fin))
  {
    hide Emit, Size, Piece, Longer, Final, Emitted, ResolveOp;
    EmitIs(node, v, |s0.ops|, s0.vars, EnvOf(target, method_, fin));
    EmittedFor(s1, s2, method_, target, node.first, Temp(v, s0.vars), fin);
    SamePiece(s0, s1, s2, fin);
    if target.Loop? {
      PieceThen(s0, s2, s3, Branch(0), target.end, fin);
      ResolveBranch(true, v, target.end, fin);
    } else {
      PieceThen(s0, s2, s3, UnwindBreak(Temp(v, s0.vars)), -1, fin);
      Unlabelled(UnwindBreak(Temp(v, s0.vars)), fin);
    }
  }

  lemma StatementsEmitted(s0: Output, s1: Output, s2: Output, method_: Method, target: Target, list: seq<Node>, v: int,
                          fin: seq<nat>)
    requires |list| > 0 && |s0.labels| <= |fin| && Exist(s0, method_, target)
    requires Emitted(s0, s1, method_, target, list[0], if |list| > 1 then NO_VAR else v)
      && Final(fin, |s0.labels|, s1.labels)
    requires EmittedStatements(s1, s2, method_, target, list[1..], v) && Final(fin, |s1.labels|, s2.labels)
    ensures Longer(s0, s2)
    ensures Code(Piece(s0, s2, fin), s2.vars) == Statements(list, v, |s0.ops|, s0.vars, EnvOf(target, method_, fin))
  {
    hide Emit, Size, Piece, Longer, Final, Emitted, EmittedStatements;
    EmittedFor(s0, s1, method_, target, list[0], if |list| > 1 then NO_VAR else v, fin);
    EmittedStatementsFor(s1, s2, method_, target, list[1..], v, fin);
    PieceChain(s0, s1, s2, fin);
  }

  lemma ArgumentsEmitted(s0: Output, s1: Output, s2: Output, method_: Method, target: Target, list: seq<Node>, v: nat,
                         fin: seq<nat>)
    requires |list| > 0 && |s0.labels| <= |fin| && Exist(s0, method_, target)
    requires Emitted(s0, s1, method_, target, list[0], v) && Final(fin, |s0.labels|, s1.labels)
    requires EmittedArguments(s1, s2, method_, target, list[1..], v + 1) && Final(fin, |s1.labels|, s2.labels)
    ensures Longer(s0, s2)
    ensures Code(Piece(s0, s2, fin), s2.vars) == CallArgs(list, v, |s0.ops|, s0.vars, EnvOf(target, method_, fin))
  {
    hide Emit, Size, Piece, Longer, Final, Emitted, EmittedArguments;
    EmittedFor(s0, s1, method_, target, list[0], v, fin);
    EmittedArgumentsFor(s1, s2, method_, target, list[1..], v + 1, fin);
    PieceChain(s0, s1, s2, fin);
  }

  lemma EmittedStatementsWhen(s0: Output, s1: Output, method_: Method, target: Target, list: seq<Node>, v: int)
    requires Exist(s0, method_, target) && |s0.labels| <= |s1.labels| && Longer(s0, s1)
    requires forall fin: seq<nat> {:trigger Final(fin, |s0.labels|, s1.labels)} ::
      Final(fin, |s0.labels|, s1.labels) ==>
               Code(Piece(s0, s1, fin), s1.vars) == Statements(list, v, |s0.ops|, s0.vars, EnvOf(target, method_, fin))
    ensures EmittedStatements(s0, s1, method_, target, list, v)
  {
  }

  lemma EmittedArgumentsWhen(s0: Output, s1: Output, method_: Method, target: Target, list: seq<Node>, v: nat)
    requires Exist(s0, method_, target) && |s0.labels| <= |s1.labels| && Longer(s0, s1)
    requires forall fin: seq<nat> {:trigger Final(fin, |s0.labels|, s1.labels)} ::
      Final(fin, |s0.labels|, s1.labels) ==>
               Code(Piece(s0, s1, fin), s1.vars) == CallArgs(list, v, |s0.ops|, s0.vars, EnvOf(target, method_, fin))
    ensures EmittedArguments(s0, s1, method_, target, list, v)
  {
  }

  lemma NothingEmitted(s: Output, method_: Method, target: Target, list: seq<Node>, v: int, w: nat)
    requires Sane(s) && Exist(s, method_, target) && list == []
    ensures EmittedStatements(s, s, method_, target, list, v)
    ensures EmittedArguments(s, s, method_, target, list, w)
  {
  }

  /** not without a use for the result */
  lemma EmittedNot(s0: Output, s1: Output, method_: Method, target: Target, node: Node)
    requires node.BooleanNotNode? && Emitted(s0, s1, method_, target, node.first, NO_VAR)
    ensures Emitted(s0, s1, method_, target, node, NO_VAR)
  {
    hide Emit, Size, Piece, Longer;
    forall fin: seq<nat> {:trigger Final(fin, |s0.labels|, s1.labels)} | Final(fin, |s0.labels|, s1.labels)
      ensures Code(Piece(s0, s1, fin), s1.vars) == Emit(node, NO_VAR, |s0.ops|, s0.vars, EnvOf(target, method_, fin))
    {
      var env := EnvOf(target, method_, fin);
      EmitIs(node, NO_VAR, |s0.ops|, s0.vars, env);
      var c := Emit(node.first, NO_VAR, |s0.ops|, s0.vars, env);
      assert c.ops + [] == c.ops;
    }
  }

  lemma EmittedNext(s0: Output, s1: Output, s2: Output, method_: Method, target: Target, node: Node, v: int)
    requires node.NextNode? && target.Loop? && Exist(s0, method_, target) && |s0.labels| <= |s2.labels| && Sane(s0)
    requires SameCode(s0, s1) && s1.vars == Taken(v, s0.vars) && Appended(s1, s2, Branch(0), target.start)
      && s2.vars == s1.vars
    ensures Emitted(s0, s2, method_, target, node, v)
  {
    hide Emit, Size, Piece, Longer, ResolveOp;
    forall fin: seq<nat> {:trigger Final(fin, |s0.labels|, s2.labels)} | |s0.labels| <= |fin|
      ensures Longer(s0, s2)
      ensures Code(Piece(s0, s2, fin), s2.vars) == Emit(node, v, |s0.ops|, s0.vars, EnvOf(target, method_, fin))
    {
      EmitIs(node, v, |s0.ops|, s0.vars, EnvOf(target, method_, fin));
      AppendedPiece(s1, s2, Branch(0), target.start, fin);
      SamePiece(s0, s1, s2, fin);
      ResolveBranch(true, v, target.start, fin);
    }
    assert |s0.labels| <= |s2.labels|;
    assert Longer(s0, s2) by {
      AppendedPiece(s1, s2, Branch(0), target.start, s2.labels);
      SamePiece(s0, s1, s2, s2.labels);
    }
  }

  lemma EmittedEmpty(s0: Output, s1: Output, method_: Method, target: Target, node: Node, v: int)
    requires node.GroupNode? && node.list == [] && Exist(s0, method_, target) && s1.labels == s0.labels
      && s1.vars == s0.vars && Sane(s0)
    requires if v != NO_VAR then Appended(s0, s1, LoadNil(v), -1) else s1 == s0
    ensures Emitted(s0, s1, method_, target, node, v)
  {
    hide Emit, Size;
    forall fin: seq<nat> {:trigger Final(fin, |s0.labels|, s1.labels)} | |s0.labels| <= |fin|
      ensures Longer(s0, s1)
      ensures Code(Piece(s0, s1, fin), s1.vars) == Emit(node, v, |s0.ops|, s0.vars, EnvOf(target, method_, fin))
    {
      EmitIs(node, v, |s0.ops|, s0.vars, EnvOf(target, method_, fin));
    }
  }

  lemma EmittedGroup(s0: Output, s1: Output, method_: Method, target: Target, node: Node, v: int)
    requires node.GroupNode? && node.list != [] && EmittedStatements(s0, s1, method_, target, node.list, v)
    ensures Emitted(s0, s1, method_, target, node, v)
  {
    hide Emit, Size, Piece, Longer, Statements;
    forall fin: seq<nat> {:trigger Final(fin, |s0.labels|, s1.labels)} | Final(fin, |s0.labels|, s1.labels)
      ensures Code(Piece(s0, s1, fin), s1.vars) == Emit(node, v, |s0.ops|, s0.vars, EnvOf(target, method_, fin))
    {
      EmitIs(node, v, |s0.ops|, s0.vars, EnvOf(target, method_, fin));
    }
  }

  lemma EmittedLeaf(s0: Output, s1: Output, method_: Method, target: Target, node: Node, v: int)
    requires node.LeafNode? && Exist(s0, method_, target) && s1.labels == s0.labels && s1.vars == s0.vars && Sane(s0)
    requires if v != NO_VAR then Appended(s0, s1, LeafCode(node.leaf, v), -1) else s1 == s0
    ensures Emitted(s0, s1, method_, target, node, v)
  {
    hide Size, LeafCode;
    forall fin: seq<nat> {:trigger Final(fin, |s0.labels|, s1.labels)} | |s0.labels| <= |fin|
      ensures Longer(s0, s1)
      ensures Code(Piece(s0, s1, fin), s1.vars) == Emit(node, v, |s0.ops|, s0.vars, EnvOf(target, method_, fin))
    {
      var env := EnvOf(target, method_, fin);
      assert Emit(node, v, |s0.ops|, s0.vars, env) == ConvertLeaf(node, v, s0.vars, env);
    }
  }

  /** The branches are exactly the instructions with a label. */
  ghost predicate Recorded(branches: seq<(nat, nat)>, targets: seq<int>, labels: nat) {
    && (forall k {:trigger branches[k]} :: 0 <= k < |branches| ==>
          branches[k].0 < |targets| && targets[branches[k].0] == branches[k].1 && branches[k].1 < labels)
    && (forall i {:trigger targets[i]} :: 0 <= i < |targets| && targets[i] != -1 ==>
          exists k :: 0 <= k < |branches| && branches[k].0 == i)
  }

  lemma RecordedMore(branches: seq<(nat, nat)>, targets: seq<int>, labels: nat, at: nat)
    requires Recorded(branches, targets, labels) && at < labels
    ensures Recorded(branches + [(|targets|, at)], targets + [at], labels)
  {
    var b, t := branches + [(|targets|, at)], targets + [at];
    forall i {:trigger t[i]} | 0 <= i < |t| && t[i] != -1
      ensures exists k :: 0 <= k < |b| && b[k].0 == i
    {
      if i < |targets| {
        assert targets[i] != -1;
        var k :| 0 <= k < |branches| && branches[k].0 == i;
        assert b[k].0 == i;
      } else {
        assert b[|branches|].0 == i;
      }
    }
  }

  ghost predicate Patched(branches: seq<(nat, nat)>, p: nat) {
    exists k :: 0 <= k < |branches| && branches[k].0 == p
  }

  lemma PatchedNext(branches: seq<(nat, nat)>, i: nat, p: nat)
    requires i < |branches|
    ensures Patched(branches[..i + 1], p) == (Patched(branches[..i], p) || p == branches[i].0)
  {
    if Patched(branches[..i], p) {
      var k :| 0 <= k < i && branches[..i][k].0 == p;
      assert branches[..i + 1][k].0 == p;
    }
    if p == branches[i].0 {
      assert branches[..i + 1][i].0 == p;
    }
    if Patched(branches[..i + 1], p) && p != branches[i].0 {
      var k :| 0 <= k < i + 1 && branches[..i + 1][k].0 == p;
      assert branches[..i][k].0 == p;
    }
  }

  /** What is not patched has no label. */
  lemma PatchedAll(branches: seq<(nat, nat)>, targets: seq<int>, labels: nat, p: nat)
    requires Recorded(branches, targets, labels) && p < |targets|
    ensures Patched(branches, p) <==> targets[p] != -1
  {
  }

  lemma PatchedTwice(op: Instr, pos: int)
    ensures WithPos(WithPos(op, pos), pos) == WithPos(op, pos)
  {
  }

  lemma MethodEmitted(s0: Output, s1: Output, s2: Output, method_: Method, group: Node, locals: nat, fin: seq<nat>)
    requires s0.ops == [] && s0.vars == locals + 1 && Emitted(s0, s1, method_, NoLoop, group, locals)
      && Final(fin, |s0.labels|, s1.labels)
    requires Appended(s1, s2, ReturnOp(locals), -1) && s2.vars == s1.vars && method_.returnVar == locals
    requires method_.epilog < |fin| && fin[method_.epilog] == |s1.ops| && Sane(s2)
    ensures Code(Resolve(s2.ops, s2.targets, fin), s2.vars) == MethodCode(group, locals)
  {
    hide Emit, Size;
    EmittedFor(s0, s1, method_, NoLoop, group, locals, fin);
    assert s0.targets == [];
    var c := Emit(group, locals, 0, locals + 1, EnvOf(NoLoop, method_, fin));
    assert |c.ops| == |s1.ops|;
    PieceThen(s0, s1, s2, ReturnOp(locals), -1, fin);
    assert Piece(s0, s2, fin) == Resolve(s2.ops, s2.targets, fin);
  }

  class Generator {
    var opcode: seq<Instr>
    var branches: seq<(nat, nat)>
    var labels: seq<nat>
    var varCount: nat
    var body: nat
    var epilog: nat
    var returnVar: int
    ghost var targets: seq<int>

    ghost function Snap(): Output
      reads this
    {
      Output(opcode, targets, labels, varCount)
    }

    function Names(): Method
      reads this
    {
      Method(body, epilog, returnVar)
    }

    ghost predicate Valid()
      reads this
    {
      |targets| == |opcode| && Recorded(branches, targets, |labels|)
    }

    constructor (locals: nat)
      ensures Valid() && Snap() == Output([], [], [], locals)
    {
      opcode, branches, labels, varCount := [], [], [], locals;
      body, epilog, returnVar := 0, 0, NO_VAR;
      targets := [];
    }

    // ----- emitting ----------------------------------------------------------------------------

    method CreateVar() returns (v: nat)
      modifies this`varCount
      ensures v == old(varCount) && varCount == v + 1
    {
      v := varCount;
      varCount := varCount + 1;
    }

    method Reuse(v: int) returns (t: int)
      modifies this`varCount
      ensures t == Temp(v, old(varCount)) && varCount == Taken(v, old(varCount))
    {
      t := v;
      if v == NO_VAR {
        t := CreateVar();
      }
    }

    /** A label without a position yet. */
    method CreateLabel() returns (l: nat)
      requires Valid()
      modifies this`labels
      ensures Valid() && l == |old(labels)| && labels == old(labels) + [0]
    {
      l := |labels|;
      labels := labels + [0];
    }

    method PlaceLabel(l: nat)
      requires Valid() && l < |labels|
      modifies this`labels
      ensures Valid() && labels == old(labels)[l := |opcode|]
    {
      labels := labels[l := |opcode|];
    }

    method Gen(op: Instr)
      requires Valid()
      modifies this`opcode, this`targets
      ensures Valid() && Appended(old(Snap()), Snap(), op, -1)
    {
      opcode := opcode + [op];
      targets := targets + [-1];
    }

    /** gen_if, gen_unless and gen_branch */
    method GenTo(op: Instr, l: nat)
      requires Valid() && l < |labels|
      modifies this`opcode, this`targets, this`branches
      ensures Valid() && Appended(old(Snap()), Snap(), op, l)
    {
      RecordedMore(branches, targets, |labels|, l);
      branches := branches + [(|opcode|, l)];
      opcode := opcode + [op];
      targets := targets + [l];
    }

    // ----- one node at a time --------------------------------------------------------------------

    method ConvertIf(node: Node, v: int, target: Target)
      requires node.IfNode? && Valid() && Exist(Snap(), Names(), target)
      modifies this`opcode, this`targets, this`branches, this`labels, this`varCount
      ensures Valid() && LabelsKept(old(labels), labels, body)
      ensures Emitted(old(Snap()), Snap(), Names(), target, node, v)
      decreases node, 0
    {
      hide Emit, Size, Recorded, Longer, Piece, Emitted, Temp, Taken, BranchOn, EnvOf, LabelsKept;
      ghost var s0, names := Snap(), Names();
      var temp := Reuse(v);
      var labelElse := CreateLabel();
      var labelEnd := CreateLabel();
      ghost var s1 := Snap();
      assert s1.labels == s0.labels + [0, 0];
      ToBytecode(node.first, temp, target);
      ghost var s2 := Snap();
      KeptCount(s1.labels, s2.labels, names.body);
      GenTo(BranchOn(node.inverted, temp, 0), labelElse);
      ghost var s3 := Snap();
      ToBytecode(node.second, v, target);
      ghost var s4 := Snap();
      KeptCount(s3.labels, s4.labels, names.body);
      GenTo(Branch(0), labelEnd);
      PlaceLabel(labelElse);
      ghost var s5 := Snap();
      assert Appended(s4, s5, Branch(0), labelEnd) && s5.labels == s4.labels[labelElse := |s5.ops|];
      ToBytecode(node.third, v, target);
      ghost var s6 := Snap();
      KeptCount(s5.labels, s6.labels, names.body);
      PlaceLabel(labelEnd);
      IfDone(s0, s1, s2, s3, s4, s5, s6, Snap(), names, target, node, v);
    }

    method ConvertAssignment(node: Node, v: int, target: Target)
      requires node.AssignmentNode? && Valid() && Exist(Snap(), Names(), target)
      modifies this`opcode, this`targets, this`branches, this`labels, this`varCount
      ensures Valid() && LabelsKept(old(labels), labels, body)
      ensures Emitted(old(Snap()), Snap(), Names(), target, node, v)
      decreases node, 0
    {
      hide Emit, Size, Recorded, Longer, Piece, Emitted, Temp, Taken, BranchOn, EnvOf;
      ghost var s0 := Snap();
      var store := Reuse(v);
      ghost var s1 := Snap();
      ToBytecode(node.first, store, target);
      ghost var s2 := Snap();
      Gen(Move(node.loc, store));
      ghost var s3 := Snap();
      if v != NO_VAR {
        Gen(Move(v, store));
      }
      ghost var s4 := Snap();
      forall fin: seq<nat> {:trigger Final(fin, |s0.labels|, labels)} | Final(fin, |s0.labels|, labels)
        ensures Longer(s0, s4)
        ensures Code(Piece(s0, s4, fin), s4.vars) == Emit(node, v, |s0.ops|, s0.vars, EnvOf(target, Names(), fin))
      {
        assert Final(fin, |s1.labels|, s2.labels);
        AssignmentEmitted(s0, s1, s2, s3, s4, Names(), target, node, v, fin);
      }
      assert Final(labels, |s0.labels|, labels);
      EmittedWhen(s0, s4, Names(), target, node, v);
    }

    method ConvertBooleanNot(node: Node, v: int, target: Target)
      requires node.BooleanNotNode? && Valid() && Exist(Snap(), Names(), target)
      modifies this`opcode, this`targets, this`branches, this`labels, this`varCount
      ensures Valid() && LabelsKept(old(labels), labels, body)
      ensures Emitted(old(Snap()), Snap(), Names(), target, node, v)
      decreases node, 0
    {
      hide Emit, Size, Recorded, Longer, Piece, Emitted, Temp, Taken, BranchOn, EnvOf;
      ghost var s0 := Snap();
      ToBytecode(node.first, v, target);
      if v == NO_VAR {
        EmittedNot(s0, Snap(), Names(), target, node);
        return;
      }
      ghost var s1 := Snap();
      var labelTrue := CreateLabel();
      var labelEnd := CreateLabel();
      GenTo(BranchOn(true, v, 0), labelTrue);
      ghost var s2 := Snap();
      Gen(LoadTrue(v));
      ghost var s3 := Snap();
      GenTo(Branch(0), labelEnd);
      PlaceLabel(labelTrue);
      ghost var s4 := Snap();
      Gen(LoadFalse(v));
      PlaceLabel(labelEnd);
      ghost var s5 := Snap();
      forall fin: seq<nat> {:trigger Final(fin, |s0.labels|, labels)} | Final(fin, |s0.labels|, labels)
        ensures Longer(s0, s5)
        ensures Code(Piece(s0, s5, fin), s5.vars) == Emit(node, v, |s0.ops|, s0.vars, EnvOf(target, Names(), fin))
      {
        assert Final(fin, |s0.labels|, s1.labels);
        BooleanNotEmitted(s0, s1, s2, s3, s4, s5, Names(), target, node, v, labelTrue, labelEnd, fin);
      }
      assert Final(labels, |s0.labels|, labels);
      EmittedWhen(s0, s5, Names(), target, node, v);
    }

    method ConvertBooleanOp(node: Node, v: int, target: Target)
      requires node.BooleanOpNode? && Valid() && Exist(Snap(), Names(), target)
      modifies this`opcode, this`targets, this`branches, this`labels, this`varCount
      ensures Valid() && LabelsKept(old(labels), labels, body)
      ensures Emitted(old(Snap()), Snap(), Names(), target, node, v)
      decreases node, 0
    {
      hide Emit, Size, Recorded, Longer, Piece, Emitted, Temp, Taken, BranchOn, EnvOf;
      ghost var s0 := Snap();
      var temp := Reuse(v);
      ghost var s1 := Snap();
      ToBytecode(node.first, temp, target);
      ghost var s2 := Snap();
      var labelEnd := CreateLabel();
      GenTo(BranchOn(node.isOr, temp, 0), labelEnd);
      ghost var s3 := Snap();
      ToBytecode(node.second, v, target);
      ghost var s4 := Snap();
      PlaceLabel(labelEnd);
      ghost var s5 := Snap();
      forall fin: seq<nat> {:trigger Final(fin, |s0.labels|, labels)} | Final(fin, |s0.labels|, labels)
        ensures Longer(s0, s5)
        ensures Code(Piece(s0, s5, fin), s5.vars) == Emit(node, v, |s0.ops|, s0.vars, EnvOf(target, Names(), fin))
      {
        assert Final(fin, |s1.labels|, s2.labels);
        assert Final(fin, |s3.labels|, s4.labels);
        BooleanOpEmitted(s0, s1, s2, s3, s4, s5, Names(), target, node, v, labelEnd, fin);
      }
      assert Final(labels, |s0.labels|, labels);
      EmittedWhen(s0, s5, Names(), target, node, v);
    }

    method ConvertBinaryOp(node: Node, v: int, target: Target)
      requires node.BinaryOpNode? && Valid() && Exist(Snap(), Names(), target)
      modifies this`opcode, this`targets, this`branches, this`labels, this`varCount
      ensures Valid() && LabelsKept(old(labels), labels, body)
      ensures Emitted(old(Snap()), Snap(), Names(), target, node, v)
      decreases node, 0
    {
      hide Emit, Size, Recorded, Longer, Piece, Emitted, Temp, Taken, BranchOn, EnvOf;
      ghost var s0 := Snap();
      var left := Reuse(v);
      ghost var s1 := Snap();
      ToBytecode(node.first, left, target);
      ghost var s2 := Snap();
      var right := CreateVar();
      ghost var s3 := Snap();
      ToBytecode(node.second, right, target);
      ghost var s4 := Snap();
      Gen(Call(v, left, node.name, 1, right));
      ghost var s5 := Snap();
      forall fin: seq<nat> {:trigger Final(fin, |s0.labels|, labels)} | Final(fin, |s0.labels|, labels)
        ensures Longer(s0, s5)
        ensures Code(Piece(s0, s5, fin), s5.vars) == Emit(node, v, |s0.ops|, s0.vars, EnvOf(target, Names(), fin))
      {
        assert Final(fin, |s1.labels|, s2.labels);
        assert Final(fin, |s3.labels|, s4.labels);
        BinaryOpEmitted(s0, s1, s2, s3, s4, s5, Names(), target, node, v, fin);
      }
      assert Final(labels, |s0.labels|, labels);
      EmittedWhen(s0, s5, Names(), target, node, v);
    }

    method ConvertCall(node: Node, v: int, target: Target)
      requires node.CallNode? && Valid() && Exist(Snap(), Names(), target)
      modifies this`opcode, this`targets, this`branches, this`labels, this`varCount
      ensures Valid() && LabelsKept(old(labels), labels, body)
      ensures Emitted(old(Snap()), Snap(), Names(), target, node, v)
      decreases node, 0
    {
      hide Emit, Size, Recorded, Longer, Piece, Emitted, Temp, Taken, BranchOn, EnvOf;
      ghost var s0 := Snap();
      var group := varCount;
      varCount := varCount + |node.list|;
      ghost var s1 := Snap();
      CallArguments(node.list, group, target);
      ghost var s2 := Snap();
      var obj := Reuse(v);
      ghost var s3 := Snap();
      ToBytecode(node.first, obj, target);
      ghost var s4 := Snap();
      Gen(Call(v, obj, node.name, |node.list|, if |node.list| > 0 then group else NO_VAR));
      ghost var s5 := Snap();
      forall fin: seq<nat> {:trigger Final(fin, |s0.labels|, labels)} | Final(fin, |s0.labels|, labels)
        ensures Longer(s0, s5)
        ensures Code(Piece(s0, s5, fin), s5.vars) == Emit(node, v, |s0.ops|, s0.vars, EnvOf(target, Names(), fin))
      {
        assert Final(fin, |s1.labels|, s2.labels);
        assert Final(fin, |s3.labels|, s4.labels);
        CallEmitted(s0, s1, s2, s3, s4, s5, Names(), target, node, v, fin);
      }
      assert Final(labels, |s0.labels|, labels);
      EmittedWhen(s0, s5, Names(), target, node, v);
    }

    /** The label moved before the branch back is the method's, not the loop's. */
    method ConvertLoop(node: Node, v: int, target: Target)
      requires node.LoopNode? && Valid() && Exist(Snap(), Names(), target)
      modifies this`opcode, this`targets, this`branches, this`labels, this`varCount
      ensures Valid() && LabelsKept(old(labels), labels, body)
      ensures Emitted(old(Snap()), Snap(), Names(), target, node, v)
      decreases node, 0
    {
      hide Emit, Size, Recorded, Longer, Piece, Emitted, Temp, Taken, BranchOn, EnvOf, LabelsKept;
      ghost var s0, names := Snap(), Names();
      var start := CreateLabel();
      var end := CreateLabel();
      PlaceLabel(start);
      var temp := Reuse(v);
      ghost var s1 := Snap();
      assert s1.labels == s0.labels + [|s0.ops|, 0];
      ToBytecode(node.first, temp, target);
      ghost var s2 := Snap();
      KeptCount(s1.labels, s2.labels, names.body);
      GenTo(BranchOn(node.inverted, temp, 0), end);
      ghost var s3 := Snap();
      ToBytecode(node.second, temp, Loop(start, end));
      ghost var s4 := Snap();
      KeptCount(s3.labels, s4.labels, names.body);
      PlaceLabel(body);
      GenTo(Branch(0), start);
      PlaceLabel(end);
      ghost var s5 := Snap();
      assert Appended(s4, s5, Branch(0), start) && s5.labels == s4.labels[names.body := |s4.ops|][end := |s5.ops|];
      if v != NO_VAR {
        Gen(LoadNil(v));
      }
      LoopDone(s0, s1, s2, s3, s4, s5, Snap(), names, target, node, v);
    }

    method ConvertReturn(node: Node, v: int, target: Target)
      requires node.ReturnNode? && Valid() && Exist(Snap(), Names(), target)
      modifies this`opcode, this`targets, this`branches, this`labels, this`varCount
      ensures Valid() && LabelsKept(old(labels), labels, body)
      ensures Emitted(old(Snap()), Snap(), Names(), target, node, v)
      decreases node, 0
    {
      hide Emit, Size, Recorded, Longer, Piece, Emitted, Temp, Taken, BranchOn, EnvOf;
      ghost var s0 := Snap();
      var temp := Reuse(v);
      ghost var s1 := Snap();
      ToBytecode(node.first, temp, target);
      ghost var s2 := Snap();
      Gen(Move(returnVar, temp));
      ghost var s3 := Snap();
      GenTo(Branch(0), epilog);
      ghost var s4 := Snap();
      var unreached := CreateLabel();
      PlaceLabel(unreached);
      ghost var s5 := Snap();
      forall fin: seq<nat> {:trigger Final(fin, |s0.labels|, labels)} | Final(fin, |s0.labels|, labels)
        ensures Longer(s0, s5)
        ensures Code(Piece(s0, s5, fin), s5.vars) == Emit(node, v, |s0.ops|, s0.vars, EnvOf(target, Names(), fin))
      {
        assert Final(fin, |s1.labels|, s2.labels);
        ReturnEmitted(s0, s1, s2, s3, s4, s5, Names(), target, node, v, fin);
      }
      assert Final(labels, |s0.labels|, labels);
      EmittedWhen(s0, s5, Names(), target, node, v);
    }

    method ConvertBreak(node: Node, v: int, target: Target)
      requires node.BreakNode? && Valid() && Exist(Snap(), Names(), target)
      modifies this`opcode, this`targets, this`branches, this`labels, this`varCount
      ensures Valid() && LabelsKept(old(labels), labels, body)
      ensures Emitted(old(Snap()), Snap(), Names(), target, node, v)
      decreases node, 0
    {
      hide Emit, Size, Recorded, Longer, Piece, Emitted, Temp, Taken, BranchOn, EnvOf;
      ghost var s0 := Snap();
      var temp := Reuse(v);
      ghost var s1 := Snap();
      ToBytecode(node.first, temp, target);
      ghost var s2 := Snap();
      if target.Loop? {
        GenTo(Branch(0), target.end);
      } else {
        Gen(UnwindBreak(temp));
      }
      ghost var s3 := Snap();
      forall fin: seq<nat> {:trigger Final(fin, |s0.labels|, labels)} | Final(fin, |s0.labels|, labels)
        ensures Longer(s0, s3)
        ensures Code(Piece(s0, s3, fin), s3.vars) == Emit(node, v, |s0.ops|, s0.vars, EnvOf(target, Names(), fin))
      {
        assert Final(fin, |s1.labels|, s2.labels);
        BreakEmitted(s0, s1, s2, s3, Names(), target, node, v, fin);
      }
      assert Final(labels, |s0.labels|, labels);
      EmittedWhen(s0, s3, Names(), target, node, v);
    }

    method ConvertNext(node: Node, v: int, target: Target)
      requires node.NextNode? && Valid() && Exist(Snap(), Names(), target)
      modifies this`opcode, this`targets, this`branches, this`labels, this`varCount
      ensures Valid() && LabelsKept(old(labels), labels, body)
      ensures Emitted(old(Snap()), Snap(), Names(), target, node, v)
      decreases node, 0
    {
      hide Emit, Size, Recorded, Longer, Piece, Emitted, Temp, Taken, BranchOn, EnvOf;
      ghost var s0 := Snap();
      var temp := Reuse(v);
      ghost var s1 := Snap();
      if target.Loop? {
        GenTo(Branch(0), target.start);
        EmittedNext(s0, s1, Snap(), Names(), target, node, v);
        return;
      }
      ToBytecode(node.first, temp, target);
      ghost var s2 := Snap();
      Gen(Move(returnVar, temp));
      ghost var s3 := Snap();
      GenTo(Branch(0), epilog);
      ghost var s4 := Snap();
      var unreached := CreateLabel();
      PlaceLabel(unreached);
      ghost var s5 := Snap();
      forall fin: seq<nat> {:trigger Final(fin, |s0.labels|, labels)} | Final(fin, |s0.labels|, labels)
        ensures Longer(s0, s5)
        ensures Code(Piece(s0, s5, fin), s5.vars) == Emit(node, v, |s0.ops|, s0.vars, EnvOf(target, Names(), fin))
      {
        assert Final(fin, |s1.labels|, s2.labels);
        NextEmitted(s0, s1, s2, s3, s4, s5, Names(), target, node, v, fin);
      }
      assert Final(labels, |s0.labels|, labels);
      EmittedWhen(s0, s5, Names(), target, node, v);
    }

    method ConvertGroup(node: Node, v: int, target: Target)
      requires node.GroupNode? && Valid() && Exist(Snap(), Names(), target)
      modifies this`opcode, this`targets, this`branches, this`labels, this`varCount
      ensures Valid() && LabelsKept(old(labels), labels, body)
      ensures Emitted(old(Snap()), Snap(), Names(), target, node, v)
      decreases node, 0
    {
      hide Emit, Size, Recorded, Longer, Piece, Emitted, Temp, Taken, BranchOn, EnvOf;
      ghost var s0 := Snap();
      if |node.list| == 0 {
        if v != NO_VAR {
          Gen(LoadNil(v));
        }
        EmittedEmpty(s0, Snap(), Names(), target, node, v);
      } else {
        ConvertStatements(node.list, v, target);
        EmittedGroup(s0, Snap(), Names(), target, node, v);
      }
    }

    method ConvertLeaf(node: Node, v: int, target: Target)
      requires node.LeafNode? && Valid() && Exist(Snap(), Names(), target)
      modifies this`opcode, this`targets, this`branches, this`labels, this`varCount
      ensures Valid() && LabelsKept(old(labels), labels, body)
      ensures Emitted(old(Snap()), Snap(), Names(), target, node, v)
      decreases node, 0
    {
      hide Emit, Size, Recorded, Longer, Piece, Emitted, Temp, Taken, BranchOn, EnvOf;
      ghost var s0 := Snap();
      if v != NO_VAR {
        Gen(LeafCode(node.leaf, v));
      }
      EmittedLeaf(s0, Snap(), Names(), target, node, v);
    }

    method ConvertStatements(list: seq<Node>, v: int, target: Target)
      requires Valid() && Exist(Snap(), Names(), target)
      modifies this`opcode, this`targets, this`branches, this`labels, this`varCount
      ensures Valid() && LabelsKept(old(labels), labels, body)
      ensures EmittedStatements(old(Snap()), Snap(), Names(), target, list, v)
      decreases list, 0
    {
      hide Emit, Size, Recorded, Longer, Piece, Emitted, Statements, EmittedStatements;
      ghost var s0 := Snap();
      if |list| == 0 {
        NothingEmitted(s0, Names(), target, list, v, 0);
        return;
      }
      ToBytecode(list[0], if |list| > 1 then NO_VAR else v, target);
      ghost var s1 := Snap();
      ConvertStatements(list[1..], v, target);
      ghost var s2 := Snap();
      forall fin: seq<nat> {:trigger Final(fin, |s0.labels|, labels)} | Final(fin, |s0.labels|, labels)
        ensures Longer(s0, s2)
        ensures Code(Piece(s0, s2, fin), s2.vars) == Statements(list, v, |s0.ops|, s0.vars, EnvOf(target, Names(), fin))
      {
        assert Final(fin, |s0.labels|, s1.labels);
        assert Final(fin, |s1.labels|, s2.labels);
        StatementsEmitted(s0, s1, s2, Names(), target, list, v, fin);
      }
      assert Final(labels, |s0.labels|, labels);
      EmittedStatementsWhen(s0, s2, Names(), target, list, v);
    }

    /** call_args */
    method CallArguments(list: seq<Node>, v: nat, target: Target)
      requires Valid() && Exist(Snap(), Names(), target)
      modifies this`opcode, this`targets, this`branches, this`labels, this`varCount
      ensures Valid() && LabelsKept(old(labels), labels, body)
      ensures EmittedArguments(old(Snap()), Snap(), Names(), target, list, v)
      decreases list, 0
    {
      hide Emit, Size, Recorded, Longer, Piece, Emitted, CallArgs, EmittedArguments;
      ghost var s0 := Snap();
      if |list| == 0 {
        NothingEmitted(s0, Names(), target, list, 0, v);
        return;
      }
      ToBytecode(list[0], v, target);
      ghost var s1 := Snap();
      CallArguments(list[1..], v + 1, target);
      ghost var s2 := Snap();
      forall fin: seq<nat> {:trigger Final(fin, |s0.labels|, labels)} | Final(fin, |s0.labels|, labels)
        ensures Longer(s0, s2)
        ensures Code(Piece(s0, s2, fin), s2.vars) == CallArgs(list, v, |s0.ops|, s0.vars, EnvOf(target, Names(), fin))
      {
        assert Final(fin, |s0.labels|, s1.labels);
        assert Final(fin, |s1.labels|, s2.labels);
        ArgumentsEmitted(s0, s1, s2, Names(), target, list, v, fin);
      }
      assert Final(labels, |s0.labels|, labels);
      EmittedArgumentsWhen(s0, s2, Names(), target, list, v);
    }

    method ToBytecode(node: Node, v: int, target: Target)
      requires Valid() && Exist(Snap(), Names(), target)
      modifies this`opcode, this`targets, this`branches, this`labels, this`varCount
      ensures Valid() && LabelsKept(old(labels), labels, body)
      ensures Emitted(old(Snap()), Snap(), Names(), target, node, v)
      decreases node, 1
    {
      hide *;
      match node
      case LeafNode(_) => ConvertLeaf(node, v, target);
      case AssignmentNode(_, _) => ConvertAssignment(node, v, target);
      case BooleanNotNode(_) => ConvertBooleanNot(node, v, target);
      case BooleanOpNode(_, _, _) => ConvertBooleanOp(node, v, target);
      case BinaryOpNode(_, _, _) => ConvertBinaryOp(node, v, target);
      case CallNode(_, _, _) => ConvertCall(node, v, target);
      case IfNode(_, _, _, _) => ConvertIf(node, v, target);
      case LoopNode(_, _, _) => ConvertLoop(node, v, target);
      case GroupNode(_) => ConvertGroup(node, v, target);
      case ReturnNode(_) => ConvertReturn(node, v, target);
      case BreakNode(_) => ConvertBreak(node, v, target);
      case NextNode(_) => ConvertNext(node, v, target);
    }

    // ----- the whole method ------------------------------------------------------------------------

    /** Every branch gets its label's position. */
    method Finalize()
      requires Valid()
      modifies this`opcode
      ensures Valid() && opcode == Resolve(old(opcode), targets, labels)
    {
      ghost var was := opcode;
      var i := 0;
      while i < |branches|
        invariant 0 <= i <= |branches| && |opcode| == |was|
        invariant forall p {:trigger opcode[p]} :: 0 <= p < |was| ==>
                    opcode[p] == if Patched(branches[..i], p) then ResolveOp(was[p], targets[p], labels) else was[p]
      {
        var b := branches[i];
        ghost var before := opcode;
        assert b.0 < |targets| && targets[b.0] == b.1;
        PatchedTwice(was[b.0], labels[b.1]);
        opcode := opcode[b.0 := WithPos(opcode[b.0], labels[b.1])];
        forall p | 0 <= p < |was|
          ensures Patched(branches[..i + 1], p) == (Patched(branches[..i], p) || p == b.0)
        {
          PatchedNext(branches, i, p);
        }
        i := i + 1;
      }
      assert branches[..i] == branches;
      forall p {:trigger opcode[p]} | 0 <= p < |was|
        ensures opcode[p] == ResolveOp(was[p], targets[p], labels)
      {
        PatchedAll(branches, targets, |labels|, p);
      }
    }

    /** The code of a method whose locals have their registers already. */
    method Generate(group: Node)
      requires Valid() && opcode == [] && labels == []
      modifies this
      ensures Code(opcode, varCount) == MethodCode(group, old(varCount))
    {
      hide Emit, Size, Recorded, Longer, Piece, Emitted, WithPos;
      ghost var locals := varCount;
      returnVar := CreateVar();
      body := CreateLabel();
      epilog := CreateLabel();
      PlaceLabel(body);
      ghost var s0 := Snap();
      ToBytecode(group, returnVar, NoLoop);
      ghost var s1 := Snap();
      PlaceLabel(epilog);
      Gen(ReturnOp(returnVar));
      ghost var s2 := Snap();
      assert Final(labels, |s0.labels|, s1.labels);
      MethodEmitted(s0, s1, s2, Names(), group, locals, labels);
      Finalize();
    }
  }
}
