/** The generator and the interpreter together. */
module Execute {
  import opened Tree
  import opened Vm
  import CodeGen
  import Generator
  import opened Simulation

  /** A method is entered with its locals and nil in all other registers. */
  function FirstFrame(group: Node, locals: seq<Value>): Frame {
    Running(0, locals + seq(CodeGen.MethodCode(group, |locals|).vars - |locals|, _ => VNil), [])
  }

  /** Compiles a method and runs its code for so many instructions, or to its end.  What comes out is
      what the tree means. */
  method CompileAndRun(world: Oracle, self: Value, group: Node, locals: seq<Value>, limit: nat) returns (f: Frame)
    requires WellFormed(group, |locals|, false)
    ensures f == Steps(MachineOf(world, self, group, |locals|), FirstFrame(group, locals), limit) && !f.Stuck?
    ensures var (out, st) := Method(world, self, limit, group, State(locals, []));
            && (f.Finished? ==> out.Returned? && Ends(|locals|, f, out.value, st))
            && (out.Exhausted? ==> f.Running?)
  {
    hide Eval, Vm.Step, Steps, Method, WellFormed, CodeGen.MethodCode;
    var generator := new Generator.Generator(|locals|);
    generator.Generate(group);
    var start := Running(0, locals + seq(generator.varCount - |locals|, _ => VNil), []);
    f := EvaluateBlock(Machine(world, self, generator.opcode), start, limit);
    StartsThere(group, locals);
    CompilationIsCorrect(world, self, group, |locals|, start, limit);
  }

  lemma StartsThere(group: Node, locals: seq<Value>)
    requires WellFormed(group, |locals|, false)
    ensures Starts(group, |locals|, FirstFrame(group, locals))
      && StateOf(|locals|, FirstFrame(group, locals)) == State(locals, [])
  {
  }

  /** If the tree's evaluation ends at all, a certain number of instructions and any greater one are
      enough to run the method to its end, with the same result. */
  lemma EnoughInstructions(world: Oracle, self: Value, group: Node, locals: seq<Value>, rounds: nat)
    returns (enough: nat)
    requires WellFormed(group, |locals|, false)
    requires Method(world, self, rounds, group, State(locals, [])).0.Returned?
    ensures var (out, st) := Method(world, self, rounds, group, State(locals, []));
            forall limit :: limit >= enough ==>
              Ends(|locals|, Steps(MachineOf(world, self, group, |locals|), FirstFrame(group, locals), limit),
                   out.value, st)
  {
    hide Eval, Vm.Step, Steps, Method, WellFormed, CodeGen.MethodCode;
    StartsThere(group, locals);
    var start := FirstFrame(group, locals);
    enough := MethodStep(world, self, rounds, group, |locals|, start);
    forall limit | limit >= enough
      ensures Steps(MachineOf(world, self, group, |locals|), start, limit)
        == Steps(MachineOf(world, self, group, |locals|), start, enough)
    {
      Settled(MachineOf(world, self, group, |locals|), start, enough, limit);
    }
  }
}
