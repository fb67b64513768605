/** The instructions that put values into variables, and what they do. */
module Registers {

  /** HeapTuple is a reference to the activation's own tuple. */
  datatype Value = Nil | Plain(n: int) | Array(list: seq<Value>) | HeapTuple

  datatype Option<T> = None | Some(value: T)

  /** DefaultValue stands for the code of parameter number i's default. */
  datatype Instr = CreateHeap(v: nat, size: nat)
                 | BlockArg(v: nat)
                 | LoadArg(v: nat, arg: nat)
                 | LoadArgFloat(v: nat, prevReg: nat, prevDef: nat)
                 | LoadArgBranch(v: nat, arg: nat, reqArgs: nat, pos: nat)
                 | LoadArrayArg(v: nat, fromArg: nat)
                 | DefaultValue(v: nat, i: nat)
                 | NewArray(v: nat)
                 | PushArray(into: nat, from: nat)
                 | Assign(v: nat, rhs: nat, index: int, size: nat)
                 | AssignArray(v: nat, rhs: nat, from: nat, size: nat)
                 | Move(dst: nat, src: nat)
                 | SetHeapVar(heap: nat, loc: nat, v: nat)

  /** Where a variable lives: in a register, or, if a closure uses it, in the tuple. */
  datatype Home = Register(r: nat) | Slot(loc: nat)

  /** The size of the tuple and the register that refers to it, the register of the method's result,
      and how many registers there are before the temporary ones. */
  datatype Layout = Layout(heapVars: nat, heapVar: nat, returnVar: nat, temps: nat)

  predicate LayoutOk(l: Layout) {
    l.returnVar < l.temps && (l.heapVars > 0 ==> l.heapVar < l.temps && l.heapVar != l.returnVar)
  }

  predicate IsHome(l: Layout, home: Home) {
    match home
    case Register(r) => r < l.temps && r != l.returnVar && (l.heapVars > 0 ==> r != l.heapVar)
    case Slot(loc) => loc < l.heapVars
  }

  /** Values pass through temporary registers and that of the result. */
  predicate IsTemp(l: Layout, t: nat) {
    t == l.returnVar || t >= l.temps
  }

  /** write_variable, once the value is in register t */
  function StoreCode(l: Layout, home: Home, t: nat): Instr {
    match home
    case Register(r) => Move(r, t)
    case Slot(loc) => SetHeapVar(l.heapVar, loc, t)
  }

  // ----- running code ----------------------------------------------------------------------------

  /** The registers and the tuple. */
  datatype Storage = Storage(vars: seq<Value>, heap: seq<Value>)

  /** What a default evaluates to may depend on the variables so far. */
  type Defaults = (nat, Storage) -> Value

  datatype Call = Call(code: seq<Instr>, minArgs: nat, maxArgs: int, argv: seq<Value>, block: Value, defaults: Defaults)
  datatype Frame = Running(ip: nat, st: Storage) | Stuck

  function Min(a: int, b: int): int {
    if a < b then a else b
  }

  function Put(f: Frame, v: nat, x: Value): Frame
    requires f.Running?
  {
    if v < |f.st.vars| then Running(f.ip + 1, f.st.(vars := f.st.vars[v := x])) else Stuck
  }

  function Next(f: Frame): Frame
    requires f.Running?
  {
    f.(ip := f.ip + 1)
  }

  /** What push_array appends: an array's elements, or the one value. */
  function Elements(x: Value): seq<Value> {
    if x.Array? then x.list else [x]
  }

  function Step(c: Call, f: Frame): Frame {
    if f.Stuck? || f.ip >= |c.code| then f
    else
      var argc := |c.argv|;
      var vars := f.st.vars;
      match c.code[f.ip]
      case CreateHeap(v, size) =>
        if v < |vars| then Running(f.ip + 1, Storage(vars[v := HeapTuple], seq(size, _ => Nil))) else Stuck
      case BlockArg(v) => Put(f, v, c.block)
      case LoadArg(v, arg) => if argc > arg then Put(f, v, c.argv[arg]) else Next(f)
      case LoadArgFloat(v, prevReg, prevDef) =>
        var pos := prevReg + Min(argc - c.minArgs, prevDef);
        if 0 <= pos < argc then Put(f, v, c.argv[pos]) else Next(f)
      case LoadArgBranch(v, arg, reqArgs, pos) =>
        if argc < reqArgs then Next(f)
        else if arg < argc && v < |vars| then Running(pos, f.st.(vars := vars[v := c.argv[arg]]))
        else Stuck
      case LoadArrayArg(v, fromArg) => Put(f, v, Array(if argc > fromArg then c.argv[fromArg..] else []))
      case DefaultValue(v, i) => Put(f, v, c.defaults(i, f.st))
      case NewArray(v) => Put(f, v, Array([]))
      case PushArray(into, from) =>
        if into < |vars| && from < |vars| && vars[into].Array?
        then Put(f, into, Array(vars[into].list + Elements(vars[from])))
        else Stuck
      case Assign(v, rhs, index, size) =>
        if rhs < |vars| && vars[rhs].Array? then PutElement(f, v, vars[rhs].list, index, size) else Stuck
      case AssignArray(v, rhs, from, size) =>
        if rhs < |vars| && vars[rhs].Array? then PutElements(f, v, vars[rhs].list, from, size) else Stuck
      case Move(dst, src) => if src < |vars| then Put(f, dst, vars[src]) else Stuck
      case SetHeapVar(heap, loc, v) =>
        if heap < |vars| && vars[heap] == HeapTuple && loc < |f.st.heap| && v < |vars|
        then Running(f.ip + 1, f.st.(heap := f.st.heap[loc := vars[v]]))
        else Stuck
  }

  /** A negative index counts from the end. */
  function PutElement(f: Frame, v: nat, xs: seq<Value>, index: int, size: nat): Frame
    requires f.Running?
  {
    if |xs| <= size then Put(f, v, Nil)
    else if index >= 0 then Put(f, v, xs[size])
    else if index + |xs| >= 0 then Put(f, v, xs[index + |xs|])
    else Stuck
  }

  function PutElements(f: Frame, v: nat, xs: seq<Value>, from: nat, size: nat): Frame
    requires f.Running?
  {
    if |xs| <= size then Put(f, v, Array([]))
    else if from <= size then Put(f, v, Array(xs[from..from + |xs| - size]))
    else Stuck
  }

  function Steps(c: Call, f: Frame, n: nat): Frame
    decreases n
  {
    if n == 0 then f else Step(c, Steps(c, f, n - 1))
  }

  lemma NoSteps(c: Call, f: Frame)
    ensures Steps(c, f, 0) == f
  {
  }

  // ----- variables -------------------------------------------------------------------------------

  /** The register that refers to the tuple does, and the tuple is big enough. */
  predicate Ready(l: Layout, vars: nat, st: Storage) {
    && |st.vars| == vars && l.temps <= vars
    && (l.heapVars > 0 ==> l.heapVar < vars && st.vars[l.heapVar] == HeapTuple && |st.heap| == l.heapVars)
  }

  function Get(st: Storage, home: Home): Value {
    match home
    case Register(r) => if r < |st.vars| then st.vars[r] else Nil
    case Slot(loc) => if loc < |st.heap| then st.heap[loc] else Nil
  }

  /** The value goes through register t to its home. */
  function Stored(st: Storage, home: Home, x: Value, t: nat): (r: Storage)
    requires t < |st.vars|
    ensures |r.vars| == |st.vars|
  {
    var vars := st.vars[t := x];
    match home
    case Register(r) => if r < |vars| then st.(vars := vars[r := x]) else st
    case Slot(loc) => if loc < |st.heap| then Storage(vars, st.heap[loc := x]) else st
  }

  lemma StoredIsThere(l: Layout, vars: nat, st: Storage, home: Home, x: Value, t: nat)
    requires LayoutOk(l) && Ready(l, vars, st) && IsHome(l, home) && IsTemp(l, t) && t < vars
    ensures Ready(l, vars, Stored(st, home, x, t)) && Get(Stored(st, home, x, t), home) == x
    ensures forall other ::
      other != home && IsHome(l, other) ==> Get(Stored(st, home, x, t), other) == Get(st, other)
    ensures forall r :: l.temps <= r < vars && r != t ==> Stored(st, home, x, t).vars[r] == st.vars[r]
  {
  }

  /** A value in a temporary register is in no variable. */
  lemma TempIsApart(l: Layout, vars: nat, st: Storage, t: nat, x: Value)
    requires LayoutOk(l) && Ready(l, vars, st) && IsTemp(l, t) && t < vars
    ensures Ready(l, vars, st.(vars := st.vars[t := x]))
    ensures forall home :: IsHome(l, home) ==> Get(st.(vars := st.vars[t := x]), home) == Get(st, home)
  {
  }

  // ----- where code stands -----------------------------------------------------------------------

  predicate At(code: seq<Instr>, base: nat, ops: seq<Instr>) {
    base + |ops| <= |code| && forall k {:trigger ops[k]} :: 0 <= k < |ops| ==> code[base + k] == ops[k]
  }

  lemma AtSplit(code: seq<Instr>, base: nat, a: seq<Instr>, b: seq<Instr>)
    requires At(code, base, a + b)
    ensures At(code, base, a) && At(code, base + |a|, b)
  {
    assert forall k {:trigger a[k]} :: 0 <= k < |a| ==> (a + b)[k] == a[k];
    forall k {:trigger b[k]} | 0 <= k < |b| ensures code[base + |a| + k] == b[k] {
      assert (a + b)[|a| + k] == b[k];
    }
  }

  lemma AtOne(code: seq<Instr>, base: nat, op: Instr)
    requires At(code, base, [op])
    ensures base < |code| && code[base] == op
  {
    assert [op][0] == op;
  }

  lemma AtTwo(code: seq<Instr>, base: nat, a: Instr, b: Instr)
    requires At(code, base, [a, b])
    ensures base + 1 < |code| && code[base] == a && code[base + 1] == b
  {
    assert [a, b][0] == a && [a, b][1] == b;
  }

  // ----- what single instructions do -------------------------------------------------------------

  predicate Stands(c: Call, f: Frame, k: nat, ip: nat, st: Storage, op: Instr) {
    Steps(c, f, k) == Running(ip, st) && ip < |c.code| && c.code[ip] == op
  }

  lemma StepHeap(c: Call, f: Frame, k: nat, ip: nat, st: Storage, v: nat, size: nat)
    requires Stands(c, f, k, ip, st, CreateHeap(v, size)) && v < |st.vars|
    ensures Steps(c, f, k + 1) == Running(ip + 1, Storage(st.vars[v := HeapTuple], seq(size, _ => Nil)))
  {
    assert Step(c, Running(ip, st)).st.heap == seq(size, _ => Nil);
  }

  lemma StepBlock(c: Call, f: Frame, k: nat, ip: nat, st: Storage, v: nat)
    requires Stands(c, f, k, ip, st, BlockArg(v)) && v < |st.vars|
    ensures Steps(c, f, k + 1) == Running(ip + 1, st.(vars := st.vars[v := c.block]))
  {
  }

  lemma StepStore(l: Layout, c: Call, f: Frame, k: nat, ip: nat, st: Storage, home: Home, x: Value, t: nat)
    requires LayoutOk(l) && Ready(l, |st.vars|, st) && IsHome(l, home) && IsTemp(l, t) && t < |st.vars|
    requires Stands(c, f, k, ip, st.(vars := st.vars[t := x]), StoreCode(l, home, t))
    ensures Steps(c, f, k + 1) == Running(ip + 1, Stored(st, home, x, t))
  {
  }

  lemma StepArgument(c: Call, f: Frame, k: nat, ip: nat, st: Storage, v: nat, pos: nat)
    requires Steps(c, f, k) == Running(ip, st) && ip < |c.code| && v < |st.vars| && pos < |c.argv|
    requires match c.code[ip]
             case LoadArg(w, arg) => w == v && arg == pos
             case LoadArgFloat(w, prevReg, prevDef) => w == v && pos == prevReg + Min(|c.argv| - c.minArgs, prevDef)
             case _ => false
    ensures Steps(c, f, k + 1) == Running(ip + 1, st.(vars := st.vars[v := c.argv[pos]]))
  {
  }

  lemma StepBranch(c: Call, f: Frame, k: nat, ip: nat, st: Storage, v: nat, arg: nat, reqArgs: nat, pos: nat)
    requires Stands(c, f, k, ip, st, LoadArgBranch(v, arg, reqArgs, pos)) && v < |st.vars|
    requires |c.argv| >= reqArgs ==> arg < |c.argv|
    ensures Steps(c, f, k + 1) ==
            if |c.argv| >= reqArgs then Running(pos, st.(vars := st.vars[v := c.argv[arg]])) else Running(ip + 1, st)
  {
  }

  lemma StepDefault(c: Call, f: Frame, k: nat, ip: nat, st: Storage, v: nat, i: nat)
    requires Stands(c, f, k, ip, st, DefaultValue(v, i)) && v < |st.vars|
    ensures Steps(c, f, k + 1) == Running(ip + 1, st.(vars := st.vars[v := c.defaults(i, st)]))
  {
  }

  lemma StepArray(c: Call, f: Frame, k: nat, ip: nat, st: Storage, v: nat, fromArg: nat)
    requires Stands(c, f, k, ip, st, LoadArrayArg(v, fromArg)) && v < |st.vars|
    ensures Steps(c, f, k + 1) == Running(ip + 1,
        st.(vars := st.vars[v := Array(if |c.argv| > fromArg then c.argv[fromArg..] else [])]))
  {
  }

  /** The array to take apart: a new one with the elements of the value in register from. */
  lemma StepsSpread(c: Call, f: Frame, k: nat, ip: nat, st: Storage, v: nat, from: nat)
    requires Stands(c, f, k, ip, st, NewArray(v)) && v < |st.vars| && from < |st.vars| && from != v
    requires ip + 1 < |c.code| && c.code[ip + 1] == PushArray(v, from)
    ensures Steps(c, f, k + 2) == Running(ip + 2, st.(vars := st.vars[v := Array(Elements(st.vars[from]))]))
  {
    var made := st.(vars := st.vars[v := Array([])]);
    assert Steps(c, f, k + 1) == Running(ip + 1, made);
    assert Steps(c, f, k + 2) == Step(c, Steps(c, f, k + 1));
    assert [] + Elements(st.vars[from]) == Elements(st.vars[from]);
  }

  lemma StepElement(c: Call, f: Frame, k: nat, ip: nat, st: Storage, v: nat, rhs: nat, index: int, size: nat)
    requires Stands(c, f, k, ip, st, Assign(v, rhs, index, size)) && v < |st.vars| && rhs < |st.vars|
    requires st.vars[rhs].Array? && (index < 0 && size < |st.vars[rhs].list| ==> 0 <= index + |st.vars[rhs].list|)
    ensures var xs := st.vars[rhs].list;
            Steps(c, f, k + 1) == Running(ip + 1, st.(vars := st.vars[v :=
                if |xs| <= size then Nil else if index >= 0 then xs[size] else xs[index + |xs|]]))
  {
  }

  lemma StepElements(c: Call, f: Frame, k: nat, ip: nat, st: Storage, v: nat, rhs: nat, from: nat, size: nat)
    requires Stands(c, f, k, ip, st, AssignArray(v, rhs, from, size)) && v < |st.vars| && rhs < |st.vars|
    requires st.vars[rhs].Array? && from <= size
    ensures var xs := st.vars[rhs].list;
            Steps(c, f, k + 1) == Running(ip + 1, st.(vars := st.vars[v :=
                Array(if |xs| <= size then [] else xs[from..from + |xs| - size])]))
  {
  }
}
