/** The code that reads a variable and the code that makes a closure, and the tuples this code finds
    when it runs. */
module Captures {
  import opened Scopes

  /** How compiled code gets at a variable. */
  datatype Access = Register(loc: nat) | OwnHeap(loc: nat) | Lookup(index: nat, loc: nat)

  /** Where a tuple of a closure comes from when the closure is made. */
  datatype Source = HeapVar | Carried(index: nat)

  method IndexOf(s: seq<Scope>, o: Scope) returns (i: nat)
    requires o in s
    ensures i < |s| && s[i] == o && o !in s[..i]
  {
    i := 0;
    while s[i] != o
      invariant i <= |s| && o !in s[..i] && o in s[i..]
      decreases |s| - i
    {
      i := i + 1;
    }
  }

  /** What the operand of a variable has to denote. */
  ghost predicate Denotes(self: Scope, access: Access, v: Variable)
    reads self, v, v.home
  {
    match access
    case Register(loc) => !v.heap && v.home == self && loc < |self.variableList| && self.variableList[loc] == v
    case OwnHeap(loc) => v.heap && v.home == self && loc == v.loc && loc < self.heapVars
    case Lookup(index, loc) => v.heap && v.home != self && loc == v.loc && loc < v.home.heapVars
                               && index < |self.referenced| && self.referenced[index] == v.home
  }

  /** read_variable and write_variable: the operand is valid wherever the use was resolved. */
  method AccessVariable(self: Scope, v: Variable, ghost scopes: set<Scope>, ghost variables: set<Variable>)
    returns (access: Access)
    requires Sound(scopes, variables) && self in scopes && v in variables && Accessible(self, v)
    ensures Denotes(self, access, v)
  {
    if v.heap {
      if v.owner != self {
        var i := IndexOf(self.referenced, v.owner);
        return Lookup(i, v.loc);
      } else {
        return OwnHeap(v.loc);
      }
    }
    return Register(v.loc);
  }

  /** One operand never denotes two variables. */
  lemma OneVariable(self: Scope, access: Access, v: Variable, w: Variable, scopes: set<Scope>, variables: set<Variable>)
    requires Sound(scopes, variables) && self in scopes && v in variables && w in variables
    requires Denotes(self, access, v) && Denotes(self, access, w)
    ensures v == w
  {
  }

  ghost predicate Takes(self: Scope, source: Source, o: Scope)
    reads self
  {
    match source
    case HeapVar => o == self && self.heapVars > 0
    case Carried(index) => o != self && index < |self.referenced| && self.referenced[index] == o
  }

  /** block_arg: the tuples of a closure of scope child, made by code of its parent. */
  method ClosureTuples(self: Scope, child: Scope, ghost scopes: set<Scope>, ghost variables: set<Variable>)
    returns (sources: seq<Source>)
    requires Sound(scopes, variables) && self in scopes && child in scopes && child.parent == self
    ensures |sources| == |child.referenced|
    ensures forall i {:trigger sources[i]} :: 0 <= i < |sources| ==> Takes(self, sources[i], child.referenced[i])
  {
    sources := [];
    var i := 0;
    while i < |child.referenced|
      invariant 0 <= i <= |child.referenced| && |sources| == i
      invariant forall k {:trigger sources[k]} :: 0 <= k < i ==> Takes(self, sources[k], child.referenced[k])
    {
      var o := child.referenced[i];
      assert Carries(scopes, child, o) && Chained(scopes, child, o);
      if o == self {
        sources := sources + [HeapVar];
      } else {
        var k := IndexOf(self.referenced, o);
        sources := sources + [Carried(k)];
      }
      i := i + 1;
    }
  }

  // ----- at run time ---------------------------------------------------------------------------

  /** A frame: its scope, its own tuple, and, for a closure's, the frame that made the closure. */
  datatype Activation = Activation(scope: Scope, heap: nat, maker: Maker)
  datatype Maker = Nobody | Made(frame: Activation, sources: seq<Source>)

  /** The code that made the closure is the compiled code of the parent scope. */
  ghost predicate Compiled(a: Activation, scopes: set<Scope>)
    reads scopes
    decreases a
  {
    a.scope in scopes &&
    match a.maker
    case Nobody => !a.scope.closure
    case Made(frame, sources) =>
      && a.scope.closure && Compiled(frame, scopes) && a.scope.parent == frame.scope
      && |sources| == |a.scope.referenced|
      && forall i {:trigger sources[i]} :: 0 <= i < |sources| ==> Takes(frame.scope, sources[i], a.scope.referenced[i])
  }

  /** Frames of methods are compiled code, and so are those of closures that compiled code makes. */
  method MakeClosure(a: Activation, child: Scope, heap: nat, ghost scopes: set<Scope>, ghost variables: set<Variable>)
    returns (b: Activation)
    requires Sound(scopes, variables) && Compiled(a, scopes) && child in scopes
    requires child.parent == a.scope && child.closure
    ensures Compiled(b, scopes) && b.scope == child && b.heap == heap && b.maker.Made? && b.maker.frame == a
  {
    var sources := ClosureTuples(a.scope, child, scopes, variables);
    b := Activation(child, heap, Made(a, sources));
  }

  lemma MethodIsCompiled(scope: Scope, heap: nat, scopes: set<Scope>)
    requires scope in scopes && !scope.closure
    ensures Compiled(Activation(scope, heap, Nobody), scopes)
  {
  }

  /** The tuples the code of a frame finds: those its maker put into the closure. */
  function Tuples(a: Activation): (r: seq<nat>)
    ensures a.maker.Made? ==> |r| == |a.maker.sources|
    decreases a
  {
    match a.maker
    case Nobody => []
    case Made(frame, sources) =>
      seq(|sources|, i requires 0 <= i < |sources| =>
        match sources[i]
        case HeapVar => frame.heap
        case Carried(index) => var outer := Tuples(frame); if index < |outer| then outer[index] else 0)
  }

  /** The frame of an enclosing scope that a frame belongs to. */
  ghost function FrameOf(a: Activation, o: Scope): Activation
    decreases a
  {
    if a.scope == o || a.maker.Nobody? then a else FrameOf(a.maker.frame, o)
  }

  /** A frame carries, at the index of each scope it references, the tuple of that scope's own
      activation: the one it was made in, directly or through other closures. */
  lemma {:induction false} TupleOfItsOwner(a: Activation, i: nat, scopes: set<Scope>, variables: set<Variable>)
    requires Sound(scopes, variables) && Compiled(a, scopes) && i < |a.scope.referenced|
    ensures i < |Tuples(a)|
    ensures var o := a.scope.referenced[i];
            var f := FrameOf(a, o);
            f.scope == o && o != a.scope && o.heapVars > 0 && Tuples(a)[i] == f.heap
    decreases a
  {
    var o := a.scope.referenced[i];
    assert Carries(scopes, a.scope, o) && Chained(scopes, a.scope, o);
    EnclosingIsAbove(o, a.scope);
    assert Takes(a.maker.frame.scope, a.maker.sources[i], o);
    if a.maker.sources[i].Carried? {
      TupleOfItsOwner(a.maker.frame, a.maker.sources[i].index, scopes, variables);
    }
  }

  /** The tuple and slot an operand reads at run time; registers are the frame's own. */
  function Slot(a: Activation, access: Access): (nat, nat)
    requires !access.Register?
    requires access.Lookup? ==> access.index < |Tuples(a)|
  {
    match access
    case OwnHeap(loc) => (a.heap, loc)
    case Lookup(index, loc) => (Tuples(a)[index], loc)
  }

  /** However deep in closures a captured variable is used, the code gets at the variable's slot in
      the tuple of the activation the variable belongs to. */
  lemma CapturedVariable(a: Activation, access: Access, v: Variable, scopes: set<Scope>, variables: set<Variable>)
    requires Sound(scopes, variables) && Compiled(a, scopes) && v in variables && v.heap && Denotes(a.scope, access, v)
    ensures !access.Register? && (access.Lookup? ==> access.index < |Tuples(a)|)
    ensures FrameOf(a, v.home).scope == v.home && v.loc < v.home.heapVars
    ensures Slot(a, access) == (FrameOf(a, v.home).heap, v.loc)
  {
    if access.Lookup? {
      TupleOfItsOwner(a, access.index, scopes, variables);
    }
  }

  /** Two closures made by one frame share its variables. */
  lemma ClosuresShare(a: Activation, b: Activation, v: Variable, x: Access, y: Access, scopes: set<Scope>,
                      variables: set<Variable>)
    requires Sound(scopes, variables) && Compiled(a, scopes) && Compiled(b, scopes) && v in variables && v.heap
    requires a.maker.Made? && b.maker.Made? && a.maker.frame == b.maker.frame && v.home != a.scope && v.home != b.scope
    requires Denotes(a.scope, x, v) && Denotes(b.scope, y, v)
    ensures x.Lookup? && y.Lookup? && x.index < |Tuples(a)| && y.index < |Tuples(b)| && Slot(a, x) == Slot(b, y)
  {
    CapturedVariable(a, x, v, scopes, variables);
    CapturedVariable(b, y, v, scopes, variables);
  }
}
