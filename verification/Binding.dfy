/** How a method's parameters get their arguments. */
module Binding {
  import opened Registers
  import opened Destructuring

  datatype Param = Required | Defaulted

  /** The rest parameter; it may be there without a name or a variable. */
  datatype Rest = NoRest | Discarded | Into(home: Home)

  /** The parameters of a scope and the variables they, the rest and the block parameter stand for;
      a parameter in parentheses stands for several. */
  datatype Scope = Scope(params: seq<Param>, targets: seq<Target>, rest: Rest, block: Option<Home>, layout: Layout)

  /** Only required parameters are in parentheses. */
  predicate Shaped(s: Scope) {
    && |s.params| == |s.targets|
    && forall i {:trigger s.targets[i]} ::
         0 <= i < |s.targets| ==> !s.targets[i].Splat? && (s.params[i] == Defaulted ==> s.targets[i].Variable?)
  }

  function CountOf(params: seq<Param>, kind: Param, n: nat): (r: nat)
    requires n <= |params|
    ensures r <= n
  {
    if n == 0 then 0 else CountOf(params, kind, n - 1) + if params[n - 1] == kind then 1 else 0
  }

  lemma {:induction false} CountsAddUp(params: seq<Param>, n: nat)
    requires n <= |params|
    ensures CountOf(params, Required, n) + CountOf(params, Defaulted, n) == n
  {
    if n > 0 {
      CountsAddUp(params, n - 1);
    }
  }

  lemma {:induction false} CountsGrow(params: seq<Param>, kind: Param, m: nat, n: nat)
    requires m <= n <= |params|
    ensures CountOf(params, kind, m) <= CountOf(params, kind, n)
    ensures m < n && params[m] == kind ==> CountOf(params, kind, m) < CountOf(params, kind, n)
    decreases n
  {
    if m < n {
      CountsGrow(params, kind, m, n - 1);
    }
  }

  // ----- the prologue ----------------------------------------------------------------------------

  function HeadCode(s: Scope): seq<Instr> {
    var l := s.layout;
    (if l.heapVars > 0 then [CreateHeap(l.heapVar, l.heapVars)] else [])
    + (if s.block.Some? then [BlockArg(l.returnVar), StoreCode(l, s.block.value, l.returnVar)] else [])
  }

  /** The next free register when n parameters have their code. */
  function ParamsTop(s: Scope, n: nat): (r: nat)
    requires Shaped(s) && n <= |s.params|
    ensures r >= s.layout.temps
  {
    if n == 0 then s.layout.temps else TargetTop(s.targets[n - 1], ParamsTop(s, n - 1))
  }

  /** How the value of parameter i gets into the result's register; base is where the code starts. */
  function LoadCode(s: Scope, i: nat, base: nat): seq<Instr>
    requires Shaped(s) && i < |s.params|
  {
    var reg, def := CountOf(s.params, Required, i), CountOf(s.params, Defaulted, i);
    match s.params[i]
    case Defaulted =>
      [LoadArgBranch(s.layout.returnVar, i, CountOf(s.params, Required, |s.params|) + def + 1, base + 2),
       DefaultValue(s.layout.returnVar, i)]
    case Required =>
      [if def > 0 then LoadArgFloat(s.layout.returnVar, reg, def) else LoadArg(s.layout.returnVar, i)]
  }

  function ParamCode(s: Scope, i: nat, base: nat): seq<Instr>
    requires Shaped(s) && i < |s.params|
  {
    LoadCode(s, i, base) + StoresCode(s.layout, s.targets[i], s.layout.returnVar, ParamsTop(s, i))
  }

  function ParamsCode(s: Scope, n: nat): seq<Instr>
    requires Shaped(s) && n <= |s.params|
  {
    if n == 0 then HeadCode(s) else ParamsCode(s, n - 1) + ParamCode(s, n - 1, |ParamsCode(s, n - 1)|)
  }

  function RestCode(s: Scope): seq<Instr> {
    if s.rest.Into?
    then [LoadArrayArg(s.layout.returnVar, |s.params|), StoreCode(s.layout, s.rest.home, s.layout.returnVar)]
    else []
  }

  lemma NoParams(s: Scope)
    requires Shaped(s)
    ensures ParamsCode(s, 0) == HeadCode(s) && CountOf(s.params, Required, 0) == CountOf(s.params, Defaulted, 0) == 0
  {
  }

  lemma ParamsNext(s: Scope, i: nat)
    requires Shaped(s) && i < |s.params|
    ensures ParamsCode(s, i + 1) == ParamsCode(s, i) + ParamCode(s, i, |ParamsCode(s, i)|)
    ensures ParamsTop(s, i + 1) == TargetTop(s.targets[i], ParamsTop(s, i))
  {
  }

  /** generate, up to the body; a branch's position is patched when the label is placed. */
  method Prologue(s: Scope) returns (code: seq<Instr>, minArgs: nat, maxArgs: int)
    requires Shaped(s)
    ensures code == ParamsCode(s, |s.params|) + RestCode(s)
    ensures minArgs == CountOf(s.params, Required, |s.params|) && maxArgs == if s.rest.NoRest? then |s.params| else -1
  {
    hide CountOf, ParamsCode, ParamsTop, StoresCode, TargetTop;
    var l := s.layout;
    NoParams(s);
    code := [];
    if l.heapVars > 0 {
      code := code + [CreateHeap(l.heapVar, l.heapVars)];
    }
    if s.block.Some? {
      code := code + [BlockArg(l.returnVar), StoreCode(l, s.block.value, l.returnVar)];
    }
    var regularArgs := 0;
    for i := 0 to |s.params|
      invariant regularArgs == CountOf(s.params, Required, i)
    {
      CountNext(s.params, Required, i);
      if s.params[i] == Required {
        regularArgs := regularArgs + 1;
      }
    }
    minArgs, maxArgs := 0, 0;
    var defaultArgs, next := 0, l.temps;
    FirstTop(s);
    for i := 0 to |s.params|
      invariant code == ParamsCode(s, i) && maxArgs == i && next == ParamsTop(s, i)
      invariant minArgs == CountOf(s.params, Required, i) && defaultArgs == CountOf(s.params, Defaulted, i)
    {
      maxArgs := maxArgs + 1;
      ghost var before := code;
      CountNext(s.params, Required, i);
      CountNext(s.params, Defaulted, i);
      ParamsNext(s, i);
      match s.params[i] {
        case Defaulted =>
          code := code + [LoadArgBranch(l.returnVar, i, regularArgs + defaultArgs + 1, 0)];
          var branch := |code| - 1;
          code := code + [DefaultValue(l.returnVar, i)];
          code := code[branch := code[branch].(pos := |code|)];
          code := code + [StoreCode(l, s.targets[i].home, l.returnVar)];
          OneVariable(l, s.targets[i], l.returnVar, next);
          defaultArgs := defaultArgs + 1;
        case Required =>
          var load :=
            if defaultArgs > 0 then LoadArgFloat(l.returnVar, minArgs, defaultArgs) else LoadArg(l.returnVar, i);
          code, next := WriteNode(l, s.targets[i], load, l.returnVar, code, next);
          minArgs := minArgs + 1;
      }
      assert code == before + ParamCode(s, i, |before|);
    }
    if !s.rest.NoRest? {
      maxArgs := -1;
      if s.rest.Into? {
        code := code + [LoadArrayArg(l.returnVar, |s.params|), StoreCode(l, s.rest.home, l.returnVar)];
      }
    }
  }

  lemma FirstTop(s: Scope)
    requires Shaped(s)
    ensures ParamsTop(s, 0) == s.layout.temps
  {
  }

  lemma OneVariable(l: Layout, target: Target, t: nat, next: nat)
    requires target.Variable?
    ensures StoresCode(l, target, t, next) == [StoreCode(l, target.home, t)] && TargetTop(target, next) == next
  {
  }

  // ----- what parameters are bound to ------------------------------------------------------------

  datatype Source = Argument(pos: nat) | Default

  /** The first arguments that required parameters leave over go to defaulted ones, in order. */
  function SourceOf(params: seq<Param>, argc: nat, i: nat): Source
    requires i < |params| && argc >= CountOf(params, Required, |params|)
  {
    var spare := argc - CountOf(params, Required, |params|);
    var reg, def := CountOf(params, Required, i), CountOf(params, Defaulted, i);
    match params[i]
    case Required => Argument(reg + Min(spare, def))
    case Defaulted => if def < spare then Argument(i) else Default
  }

  /** The arguments of the first n parameters, in their order. */
  function Spelled(params: seq<Param>, argv: seq<Value>, n: nat): seq<Value>
    requires n <= |params| && |argv| >= CountOf(params, Required, |params|)
  {
    if n == 0 then []
    else
      var source := SourceOf(params, |argv|, n - 1);
      Spelled(params, argv, n - 1) + if source.Argument? && source.pos < |argv| then [argv[source.pos]] else []
  }

  function RestOf(params: seq<Param>, argv: seq<Value>): seq<Value> {
    if |argv| > |params| then argv[|params|..] else []
  }

  /** The arguments spelled out so far are the first ones. */
  predicate SpelledSoFar(params: seq<Param>, argv: seq<Value>, n: nat)
    requires n <= |params| && |argv| >= CountOf(params, Required, |params|)
  {
    var spare := |argv| - CountOf(params, Required, |params|);
    var k := CountOf(params, Required, n) + Min(spare, CountOf(params, Defaulted, n));
    0 <= k <= |argv| && Spelled(params, argv, n) == argv[..k]
  }

  lemma {:induction false} SpelledIsPrefix(params: seq<Param>, argv: seq<Value>, n: nat)
    requires n <= |params| && |argv| >= CountOf(params, Required, |params|)
    ensures SpelledSoFar(params, argv, n)
  {
    if n == 0 {
      CountsGrow(params, Required, 0, |params|);
    } else {
      hide SpelledSoFar;
      SpelledIsPrefix(params, argv, n - 1);
      SpelledNext(params, argv, n - 1, n);
    }
  }

  lemma SpelledNext(params: seq<Param>, argv: seq<Value>, n: nat, next: nat)
    requires next == n + 1 <= |params| && |argv| >= CountOf(params, Required, |params|)
    requires SpelledSoFar(params, argv, n)
    ensures SpelledSoFar(params, argv, next)
  {
    hide CountOf, Spelled, SourceOf;
    CountsGrow(params, Required, next, |params|);
    SpelledOne(params, argv, n);
    SourceIsNext(params, |argv|, n);
    var k := CountOf(params, Required, n)
      + Min(|argv| - CountOf(params, Required, |params|), CountOf(params, Defaulted, n));
    if k < |argv| {
      OneMoreArgument(argv, k);
    }
  }

  lemma OneMoreArgument(argv: seq<Value>, k: nat)
    requires k < |argv|
    ensures argv[..k] + [argv[k]] == argv[..k + 1] && argv[..k] + [] == argv[..k]
  {
  }

  /** A parameter that has an argument has the first that is still there. */
  lemma SourceIsNext(params: seq<Param>, argc: nat, n: nat)
    requires n < |params| && argc >= CountOf(params, Required, |params|)
    ensures var spare := argc - CountOf(params, Required, |params|);
            var k := CountOf(params, Required, n) + Min(spare, CountOf(params, Defaulted, n));
            CountOf(params, Required, n + 1) + Min(spare, CountOf(params, Defaulted, n + 1)) ==
            k + if SourceOf(params, argc, n).Argument? then 1 else 0
    ensures var spare := argc - CountOf(params, Required, |params|);
            SourceOf(params, argc, n).Argument? ==>
              SourceOf(params, argc, n).pos == CountOf(params, Required, n) + Min(spare, CountOf(params, Defaulted, n))
    ensures SourceOf(params, argc, n).Argument? ==> SourceOf(params, argc, n).pos < argc
  {
    hide CountOf;
    CountsAddUp(params, n);
    CountNext(params, Required, n);
    CountNext(params, Defaulted, n);
    CountsGrow(params, Required, n + 1, |params|);
  }

  lemma SpelledOne(params: seq<Param>, argv: seq<Value>, n: nat)
    requires n < |params| && |argv| >= CountOf(params, Required, |params|)
    ensures var source := SourceOf(params, |argv|, n);
            Spelled(params, argv, n + 1) ==
            Spelled(params, argv, n) + if source.Argument? && source.pos < |argv| then [argv[source.pos]] else []
  {
  }

  lemma CountNext(params: seq<Param>, kind: Param, n: nat)
    requires n < |params|
    ensures CountOf(params, kind, n + 1) == CountOf(params, kind, n) + if params[n] == kind then 1 else 0
  {
  }

  lemma CutInTwo(argv: seq<Value>, n: nat)
    requires n <= |argv|
    ensures argv[..n] + argv[n..] == argv && argv[|argv|..] == []
  {
  }

  /** The bound arguments in the order of the parameters, and the rest, are the arguments. */
  lemma ArgumentsSpellOut(params: seq<Param>, argv: seq<Value>, hasRest: bool)
    requires |argv| >= CountOf(params, Required, |params|) && (!hasRest ==> |argv| <= |params|)
    ensures Spelled(params, argv, |params|) + RestOf(params, argv) == argv
    ensures !hasRest ==> RestOf(params, argv) == []
  {
    hide CountOf, Spelled;
    SpelledIsPrefix(params, argv, |params|);
    CountsAddUp(params, |params|);
    CutInTwo(argv, if |argv| > |params| then |params| else |argv|);
  }

  /** All required parameters are bound, and of the defaulted ones exactly the first so many as there
      are arguments beyond the required ones. */
  lemma WhoIsBound(params: seq<Param>, argc: nat, i: nat)
    requires i < |params| && argc >= CountOf(params, Required, |params|)
    ensures SourceOf(params, argc, i).Argument? <==>
            params[i] == Required || CountOf(params, Defaulted, i) < argc - CountOf(params, Required, |params|)
    ensures SourceOf(params, argc, i).Argument? ==> SourceOf(params, argc, i).pos < argc
  {
    CountsGrow(params, Required, i, |params|);
    CountsAddUp(params, i);
  }

  /** Later parameters have later arguments. */
  lemma SourcesAscend(params: seq<Param>, argc: nat, i: nat, j: nat)
    requires i < j < |params| && argc >= CountOf(params, Required, |params|)
    requires SourceOf(params, argc, i).Argument? && SourceOf(params, argc, j).Argument?
    ensures SourceOf(params, argc, i).pos < SourceOf(params, argc, j).pos
  {
    CountsAddUp(params, i);
    CountsAddUp(params, j);
    CountsGrow(params, Required, i, j);
    CountsGrow(params, Defaulted, i, j);
  }

  // ----- the prologue binds them -----------------------------------------------------------------

  /** What call_frame lets through. */
  predicate Accepts(c: Call) {
    |c.argv| >= c.minArgs && (c.maxArgs != -1 ==> |c.argv| <= c.maxArgs)
  }

  function AllHomes(s: Scope, n: nat): seq<Home>
    requires n <= |s.targets|
  {
    if n == 0 then [] else AllHomes(s, n - 1) + Homes(s.targets[n - 1])
  }

  function OtherHomes(s: Scope): seq<Home> {
    (if s.rest.Into? then [s.rest.home] else []) + (if s.block.Some? then [s.block.value] else [])
  }

  /** No two variables live in one place, and there are registers enough. */
  predicate ScopeOk(s: Scope, vars: nat) {
    && Shaped(s) && LayoutOk(s.layout) && ParamsTop(s, |s.params|) <= vars
    && AreHomes(s.layout, AllHomes(s, |s.params|) + OtherHomes(s))
    && AllDifferent(AllHomes(s, |s.params|) + OtherHomes(s))
  }

  predicate CallOk(s: Scope, c: Call) {
    && Shaped(s) && c.code == ParamsCode(s, |s.params|) + RestCode(s)
    && c.minArgs == CountOf(s.params, Required, |s.params|)
    && c.maxArgs == (if s.rest.NoRest? then |s.params| else -1) && Accepts(c)
  }

  lemma {:induction false} TopGrows(s: Scope, m: nat, n: nat)
    requires Shaped(s) && m <= n <= |s.params|
    ensures ParamsTop(s, m) <= ParamsTop(s, n)
    decreases n
  {
    if m < n {
      TopGrows(s, m, n - 1);
    }
  }

  /** The storage before the first parameter. */
  function Made(s: Scope, c: Call, vars: seq<Value>): (r: Storage)
    requires LayoutOk(s.layout) && s.layout.temps <= |vars|
    ensures |r.vars| == |vars|
  {
    var l := s.layout;
    var st := if l.heapVars > 0 then Storage(vars[l.heapVar := HeapTuple], seq(l.heapVars, _ => Nil))
              else Storage(vars, []);
    if s.block.Some? then Stored(st, s.block.value, c.block, l.returnVar) else st
  }

  /** The variables when n parameters have been bound. */
  function After(s: Scope, c: Call, n: nat, vars: seq<Value>): (r: Storage)
    requires Shaped(s) && n <= |s.params| && LayoutOk(s.layout) && ParamsTop(s, n) <= |vars|
    requires |c.argv| >= CountOf(s.params, Required, |s.params|)
    ensures |r.vars| == |vars|
  {
    if n == 0 then Made(s, c, vars)
    else
      var before := After(s, c, n - 1, vars);
      Spread(s.targets[n - 1], Bound(s, c, n - 1, before), before, s.layout.returnVar, ParamsTop(s, n - 1))
  }

  /** What parameter i is bound to. */
  function Bound(s: Scope, c: Call, i: nat, before: Storage): Value
    requires i < |s.params| && |c.argv| >= CountOf(s.params, Required, |s.params|)
  {
    var source := SourceOf(s.params, |c.argv|, i);
    if source.Argument? && source.pos < |c.argv| then c.argv[source.pos] else c.defaults(i, before)
  }

  // Which variables are whose.

  lemma {:induction false} HomesOfFirst(s: Scope, m: nat, n: nat, more: seq<Home>)
    requires m <= n <= |s.targets|
    requires AreHomes(s.layout, AllHomes(s, n) + more) && AllDifferent(AllHomes(s, n) + more)
    ensures AreHomes(s.layout, AllHomes(s, m)) && AllDifferent(AllHomes(s, m))
    decreases n
  {
    HomesSplit(s.layout, AllHomes(s, n), more);
    DifferentSplit(AllHomes(s, n), more);
    if m < n {
      HomesOfFirst(s, m, n - 1, Homes(s.targets[n - 1]));
    }
  }

  lemma HomesOfParam(s: Scope, vars: nat, i: nat)
    requires ScopeOk(s, vars) && i < |s.params|
    ensures AreHomes(s.layout, Homes(s.targets[i])) && AllDifferent(Homes(s.targets[i]))
    ensures forall k {:trigger AllHomes(s, i)[k]} ::
      0 <= k < |AllHomes(s, i)| ==> AllHomes(s, i)[k] !in Homes(s.targets[i])
  {
    hide AllHomes, Homes;
    HomesOfFirst(s, i + 1, |s.params|, OtherHomes(s));
    AllHomesNext(s, i);
    HomesSplit(s.layout, AllHomes(s, i), Homes(s.targets[i]));
    DifferentSplit(AllHomes(s, i), Homes(s.targets[i]));
  }

  lemma AllHomesNext(s: Scope, i: nat)
    requires i < |s.targets|
    ensures AllHomes(s, i + 1) == AllHomes(s, i) + Homes(s.targets[i])
  {
  }

  lemma {:induction false} HomesAmong(s: Scope, i: nat, n: nat)
    requires i < n <= |s.targets|
    ensures forall k {:trigger Homes(s.targets[i])[k]} ::
      0 <= k < |Homes(s.targets[i])| ==> Homes(s.targets[i])[k] in AllHomes(s, n)
    decreases n
  {
    if i < n - 1 {
      HomesAmong(s, i, n - 1);
    }
  }

  lemma OtherHomesApart(s: Scope, vars: nat)
    requires ScopeOk(s, vars)
    ensures AreHomes(s.layout, OtherHomes(s)) && AllDifferent(OtherHomes(s))
    ensures forall i, k {:trigger Homes(s.targets[i])[k]} ::
      0 <= i < |s.targets| && 0 <= k < |Homes(s.targets[i])| ==> Homes(s.targets[i])[k] !in OtherHomes(s)
  {
    var all := AllHomes(s, |s.params|);
    HomesSplit(s.layout, all, OtherHomes(s));
    DifferentSplit(all, OtherHomes(s));
    forall i, k {:trigger Homes(s.targets[i])[k]} | 0 <= i < |s.targets| && 0 <= k < |Homes(s.targets[i])|
      ensures Homes(s.targets[i])[k] !in OtherHomes(s)
    {
      HomesAmong(s, i, |s.params|);
    }
  }

  // What parameters keep.

  lemma ParamFits(s: Scope, vars: nat, i: nat, st: Storage)
    requires ScopeOk(s, vars) && i < |s.params| && Ready(s.layout, vars, st)
    ensures Fits(s.layout, st, s.layout.returnVar, ParamsTop(s, i), TargetTop(s.targets[i], ParamsTop(s, i)))
  {
    ParamsNext(s, i);
    TopGrows(s, i + 1, |s.params|);
  }

  lemma MadeReady(s: Scope, c: Call, vars: seq<Value>)
    requires ScopeOk(s, |vars|)
    ensures Ready(s.layout, |vars|, Made(s, c, vars))
    ensures s.block.Some? ==> Get(Made(s, c, vars), s.block.value) == c.block
  {
    TopGrows(s, 0, |s.params|);
    OtherHomesApart(s, |vars|);
    var l := s.layout;
    var st := if l.heapVars > 0 then Storage(vars[l.heapVar := HeapTuple], seq(l.heapVars, _ => Nil))
              else Storage(vars, []);
    if s.block.Some? {
      assert OtherHomes(s)[|OtherHomes(s)| - 1] == s.block.value;
      StoredIsThere(l, |vars|, st, s.block.value, c.block, l.returnVar);
    }
  }

  lemma {:induction false} AlwaysReady(s: Scope, c: Call, n: nat, vars: seq<Value>)
    requires ScopeOk(s, |vars|) && CallOk(s, c) && n <= |s.params|
    ensures ParamsTop(s, n) <= |vars| && Ready(s.layout, |vars|, After(s, c, n, vars))
  {
    hide Spread, Bound, Ready, CountOf, Homes, AllHomes, Made;
    TopGrows(s, n, |s.params|);
    if n == 0 {
      MadeReady(s, c, vars);
    } else {
      AlwaysReady(s, c, n - 1, vars);
      var before := After(s, c, n - 1, vars);
      ParamFits(s, |vars|, n - 1, before);
      HomesOfParam(s, |vars|, n - 1);
      SpreadKeeps(s.layout, s.targets[n - 1], Bound(s, c, n - 1, before), before, s.layout.returnVar,
                  ParamsTop(s, n - 1));
    }
  }

  /** The next parameter gets its value, and no other variable changes. */
  lemma NextIsBound(s: Scope, c: Call, i: nat, vars: seq<Value>)
    requires ScopeOk(s, |vars|) && CallOk(s, c) && i < |s.params|
    ensures ParamsTop(s, i) <= ParamsTop(s, i + 1) <= |vars|
    ensures var before, after := After(s, c, i, vars), After(s, c, i + 1, vars);
      && Hold(after, Homes(s.targets[i]), Values(s.targets[i], Bound(s, c, i, before), AsCoded))
      && Untouched(s.layout, Homes(s.targets[i]), before, after, s.layout.returnVar, ParamsTop(s, i))
  {
    hide Spread, Bound, Ready, CountOf, Homes, AllHomes, Made, Hold, Untouched, Values;
    TopGrows(s, i, i + 1);
    TopGrows(s, i + 1, |s.params|);
    AlwaysReady(s, c, i, vars);
    var before := After(s, c, i, vars);
    ParamFits(s, |vars|, i, before);
    HomesOfParam(s, |vars|, i);
    SpreadKeeps(s.layout, s.targets[i], Bound(s, c, i, before), before, s.layout.returnVar, ParamsTop(s, i));
    SpreadAssigns(s.layout, s.targets[i], Bound(s, c, i, before), before, s.layout.returnVar, ParamsTop(s, i));
  }

  lemma HoldStill(l: Layout, st: Storage, st': Storage, homes: seq<Home>, values: seq<Value>, others: seq<Home>, t: nat,
                  next: nat)
    requires Hold(st, homes, values) && Untouched(l, others, st, st', t, next) && AreHomes(l, homes)
    requires forall k {:trigger homes[k]} :: 0 <= k < |homes| ==> homes[k] !in others
    ensures Hold(st', homes, values)
  {
  }

  /** The variables of a parameter keep what they are bound to, and defaults that come later find it. */
  lemma {:induction false} StaysBound(s: Scope, c: Call, vars: seq<Value>, i: nat, n: nat)
    requires ScopeOk(s, |vars|) && CallOk(s, c) && i < n <= |s.params|
    ensures ParamsTop(s, i) <= ParamsTop(s, n) <= |vars|
    ensures Hold(After(s, c, n, vars), Homes(s.targets[i]),
                 Values(s.targets[i], Bound(s, c, i, After(s, c, i, vars)), AsCoded))
    decreases n
  {
    hide After, Spread, Bound, Ready, CountOf, Homes, AllHomes, Made, Hold, Untouched, Values;
    TopGrows(s, i, n);
    TopGrows(s, n, |s.params|);
    NextIsBound(s, c, n - 1, vars);
    if i < n - 1 {
      StaysBound(s, c, vars, i, n - 1);
      HomesAmong(s, i, n - 1);
      HomesOfParam(s, |vars|, n - 1);
      HomesOfParam(s, |vars|, i);
      var homes := Homes(s.targets[i]);
      forall k {:trigger homes[k]} | 0 <= k < |homes| ensures homes[k] !in Homes(s.targets[n - 1]) {
        assert Homes(s.targets[i])[k] in AllHomes(s, n - 1);
      }
      HoldStill(s.layout, After(s, c, n - 1, vars), After(s, c, n, vars), homes,
                Values(s.targets[i], Bound(s, c, i, After(s, c, i, vars)), AsCoded), Homes(s.targets[n - 1]),
                s.layout.returnVar, ParamsTop(s, n - 1));
    }
  }

  /** The block parameter keeps the block. */
  lemma {:induction false} BlockStays(s: Scope, c: Call, vars: seq<Value>, n: nat)
    requires ScopeOk(s, |vars|) && CallOk(s, c) && n <= |s.params| && s.block.Some?
    ensures ParamsTop(s, n) <= |vars| && Get(After(s, c, n, vars), s.block.value) == c.block
    decreases n
  {
    hide Spread, Bound, Ready, CountOf, Homes, AllHomes, Made, Get, Stored;
    TopGrows(s, n, |s.params|);
    if n == 0 {
      MadeReady(s, c, vars);
    } else {
      BlockStays(s, c, vars, n - 1);
      NextIsBound(s, c, n - 1, vars);
      OtherHomesApart(s, |vars|);
      var others := OtherHomes(s);
      assert others[|others| - 1] == s.block.value;
      assert s.block.value !in Homes(s.targets[n - 1]);
    }
  }

  // Running it.

  lemma {:induction false} ParamsThere(s: Scope, c: Call, n: nat)
    requires CallOk(s, c) && n <= |s.params|
    ensures At(c.code, 0, ParamsCode(s, n))
    decreases |s.params| - n
  {
    hide ParamsCode, ParamCode, At;
    if n == |s.params| {
      AtStart(c.code);
      AtSplit(c.code, 0, ParamsCode(s, n), RestCode(s));
    } else {
      ParamsThere(s, c, n + 1);
      ParamsNext(s, n);
      AtSplit(c.code, 0, ParamsCode(s, n), ParamCode(s, n, |ParamsCode(s, n)|));
    }
  }

  lemma AtStart(code: seq<Instr>)
    ensures At(code, 0, code)
  {
  }

  /** The code of parameter i is where it should be. */
  lemma ParamThere(s: Scope, c: Call, i: nat)
    requires CallOk(s, c) && i < |s.params|
    ensures var base := |ParamsCode(s, i)|;
      && At(c.code, base, LoadCode(s, i, base))
      && At(c.code, base + |LoadCode(s, i, base)|,
            StoresCode(s.layout, s.targets[i], s.layout.returnVar, ParamsTop(s, i)))
      && |ParamsCode(s, i + 1)| == base + |LoadCode(s, i, base)|
           + |StoresCode(s.layout, s.targets[i], s.layout.returnVar, ParamsTop(s, i))|
  {
    hide ParamsCode, At, LoadCode, StoresCode, ParamsTop;
    var base := |ParamsCode(s, i)|;
    ParamsThere(s, c, i + 1);
    ParamsNext(s, i);
    AtSplit(c.code, 0, ParamsCode(s, i), ParamCode(s, i, base));
    AtSplit(c.code, base, LoadCode(s, i, base),
            StoresCode(s.layout, s.targets[i], s.layout.returnVar, ParamsTop(s, i)));
  }

  /** The tuple is made, and the block parameter is bound, before anything else. */
  lemma RunsHead(s: Scope, c: Call, vars: seq<Value>) returns (n: nat)
    requires ScopeOk(s, |vars|) && CallOk(s, c)
    ensures s.layout.temps <= |vars|
    ensures Steps(c, Running(0, Storage(vars, [])), n) == Running(|ParamsCode(s, 0)|, Made(s, c, vars))
  {
    hide Steps, Step, StoreCode, Stored, CountOf, At, AllHomes;
    ParamsThere(s, c, 0);
    NoParams(s);
    TopGrows(s, 0, |s.params|);
    var l := s.layout;
    var f := Running(0, Storage(vars, []));
    NoSteps(c, f);
    n := 0;
    var st := Storage(vars, []);
    var making := if l.heapVars > 0 then [CreateHeap(l.heapVar, l.heapVars)] else [];
    var binding := if s.block.Some? then [BlockArg(l.returnVar), StoreCode(l, s.block.value, l.returnVar)] else [];
    AtSplit(c.code, 0, making, binding);
    if l.heapVars > 0 {
      AtOne(c.code, 0, CreateHeap(l.heapVar, l.heapVars));
      StepHeap(c, f, 0, 0, st, l.heapVar, l.heapVars);
      st := Storage(vars[l.heapVar := HeapTuple], seq(l.heapVars, _ => Nil));
      n := 1;
    }
    if s.block.Some? {
      AtTwo(c.code, n, BlockArg(l.returnVar), StoreCode(l, s.block.value, l.returnVar));
      OtherHomesApart(s, |vars|);
      assert OtherHomes(s)[|OtherHomes(s)| - 1] == s.block.value;
      StepBlock(c, f, n, n, st, l.returnVar);
      StepStore(l, c, f, n + 1, n + 1, st, s.block.value, c.block, l.returnVar);
      n := n + 2;
    }
  }

  /** The value of parameter i gets into the result's register. */
  lemma RunsLoad(s: Scope, c: Call, f: Frame, i: nat, k: nat, st: Storage) returns (n: nat)
    requires CallOk(s, c) && i < |s.params| && s.layout.returnVar < |st.vars|
    requires Steps(c, f, k) == Running(|ParamsCode(s, i)|, st)
    ensures var base := |ParamsCode(s, i)|;
            Steps(c, f, n) == Running(base + |LoadCode(s, i, base)|,
                                      st.(vars := st.vars[s.layout.returnVar := Bound(s, c, i, st)]))
  {
    hide Steps, Step, ParamsCode, CountOf, At;
    var t, base := s.layout.returnVar, |ParamsCode(s, i)|;
    ParamThere(s, c, i);
    WhoIsBound(s.params, |c.argv|, i);
    CountsAddUp(s.params, i);
    var reg, def := CountOf(s.params, Required, i), CountOf(s.params, Defaulted, i);
    if s.params[i] == Required {
      AtOne(c.code, base, if def > 0 then LoadArgFloat(t, reg, def) else LoadArg(t, i));
      StepArgument(c, f, k, base, st, t, SourceOf(s.params, |c.argv|, i).pos);
      n := k + 1;
    } else {
      CountsGrow(s.params, Required, i, |s.params|);
      var reqArgs := CountOf(s.params, Required, |s.params|) + def + 1;
      AtTwo(c.code, base, LoadArgBranch(t, i, reqArgs, base + 2), DefaultValue(t, i));
      StepBranch(c, f, k, base, st, t, i, reqArgs, base + 2);
      n := k + 1;
      if |c.argv| < reqArgs {
        StepDefault(c, f, n, base + 1, st, t, i);
        n := n + 1;
      }
    }
  }

  lemma {:induction false} RunsParams(s: Scope, c: Call, vars: seq<Value>, i: nat) returns (n: nat)
    requires ScopeOk(s, |vars|) && CallOk(s, c) && i <= |s.params|
    ensures ParamsTop(s, i) <= |vars|
    ensures Steps(c, Running(0, Storage(vars, [])), n) == Running(|ParamsCode(s, i)|, After(s, c, i, vars))
  {
    hide Steps, Step, ParamsCode, CountOf, At, LoadCode, StoresCode, Bound, Spread, Made, AllHomes, Homes;
    TopGrows(s, i, |s.params|);
    if i == 0 {
      n := RunsHead(s, c, vars);
    } else {
      var f := Running(0, Storage(vars, []));
      n := RunsParams(s, c, vars, i - 1);
      var st, base := After(s, c, i - 1, vars), |ParamsCode(s, i - 1)|;
      AlwaysReady(s, c, i - 1, vars);
      ParamFits(s, |vars|, i - 1, st);
      HomesOfParam(s, |vars|, i - 1);
      ParamThere(s, c, i - 1);
      n := RunsLoad(s, c, f, i - 1, n, st);
      n := RunsStores(s.layout, s.targets[i - 1], Bound(s, c, i - 1, st), c, f, n,
                      base + |LoadCode(s, i - 1, base)|, st, s.layout.returnVar, ParamsTop(s, i - 1));
    }
  }

  lemma RestThere(s: Scope, c: Call)
    requires CallOk(s, c) && s.rest.Into?
    ensures |c.code| == |ParamsCode(s, |s.params|)| + 2
    ensures At(c.code, |ParamsCode(s, |s.params|)|, RestCode(s))
  {
    hide ParamsCode, At;
    AtStart(c.code);
    AtSplit(c.code, 0, ParamsCode(s, |s.params|), RestCode(s));
  }

  /** The rest parameter gets the rest, and the others keep theirs. */
  lemma RunsRest(s: Scope, c: Call, f: Frame, k: nat, st: Storage) returns (n: nat)
    requires ScopeOk(s, |st.vars|) && CallOk(s, c) && s.rest.Into? && Ready(s.layout, |st.vars|, st)
    requires Steps(c, f, k) == Running(|ParamsCode(s, |s.params|)|, st)
    ensures var rest := Stored(st, s.rest.home, Array(RestOf(s.params, c.argv)), s.layout.returnVar);
      && Steps(c, f, n) == Running(|c.code|, rest) && Ready(s.layout, |st.vars|, rest)
      && Get(rest, s.rest.home) == Array(RestOf(s.params, c.argv))
      && (s.block.Some? ==> Get(rest, s.block.value) == Get(st, s.block.value))
      && forall i, values {:trigger Hold(st, Homes(s.targets[i]), values)} ::
           0 <= i < |s.params| && Hold(st, Homes(s.targets[i]), values) ==> Hold(rest, Homes(s.targets[i]), values)
  {
    hide Steps, Step, ParamsCode, CountOf, Stored, StoreCode, At, Homes, AllHomes;
    var l, base, x := s.layout, |ParamsCode(s, |s.params|)|, Array(RestOf(s.params, c.argv));
    RestThere(s, c);
    OtherHomesApart(s, |st.vars|);
    assert OtherHomes(s)[0] == s.rest.home && (s.block.Some? ==> OtherHomes(s)[1] == s.block.value);
    AtTwo(c.code, base, LoadArrayArg(l.returnVar, |s.params|), StoreCode(l, s.rest.home, l.returnVar));
    StepArray(c, f, k, base, st, l.returnVar, |s.params|);
    StepStore(l, c, f, k + 1, base + 1, st, s.rest.home, x, l.returnVar);
    StoredIsThere(l, |st.vars|, st, s.rest.home, x, l.returnVar);
    n := k + 2;
    forall i, values {:trigger Hold(st, Homes(s.targets[i]), values)}
      | 0 <= i < |s.params| && Hold(st, Homes(s.targets[i]), values)
      ensures Hold(Stored(st, s.rest.home, x, l.returnVar), Homes(s.targets[i]), values)
    {
      HomesOfParam(s, |st.vars|, i);
      var homes := Homes(s.targets[i]);
      forall k {:trigger homes[k]} | 0 <= k < |homes| ensures homes[k] != s.rest.home {
        assert Homes(s.targets[i])[k] !in OtherHomes(s);
      }
    }
  }

  /** Parameter i has what it is bound to, taken apart if it is in parentheses. */
  ghost predicate ParamBound(s: Scope, c: Call, vars: seq<Value>, st: Storage, i: int)
    requires Shaped(s) && LayoutOk(s.layout) && |c.argv| >= CountOf(s.params, Required, |s.params|)
  {
    && 0 <= i < |s.params| && ParamsTop(s, i) <= |vars|
    && Hold(st, Homes(s.targets[i]), Values(s.targets[i], Bound(s, c, i, After(s, c, i, vars)), AsCoded))
  }

  ghost predicate ParamsBound(s: Scope, c: Call, vars: seq<Value>, st: Storage)
    requires Shaped(s) && LayoutOk(s.layout) && |c.argv| >= CountOf(s.params, Required, |s.params|)
  {
    forall i {:trigger ParamBound(s, c, vars, st, i)} :: 0 <= i < |s.params| ==> ParamBound(s, c, vars, st, i)
  }

  /** Variable k of parameter i, wherever it lives. */
  lemma EachIsBound(s: Scope, c: Call, vars: seq<Value>, st: Storage, i: nat, k: nat)
    requires Shaped(s) && LayoutOk(s.layout) && |c.argv| >= CountOf(s.params, Required, |s.params|)
    requires ParamsBound(s, c, vars, st) && i < |s.params| && k < |Homes(s.targets[i])|
    ensures ParamsTop(s, i) <= |vars|
    ensures Get(st, Homes(s.targets[i])[k]) ==
            Values(s.targets[i], Bound(s, c, i, After(s, c, i, vars)), AsCoded)[k]
  {
    hide After, Bound, Homes, Values, CountOf, Get;
    assert ParamBound(s, c, vars, st, i);
  }

  lemma AllAreBound(s: Scope, c: Call, vars: seq<Value>)
    requires ScopeOk(s, |vars|) && CallOk(s, c)
    ensures ParamsTop(s, |s.params|) <= |vars| && ParamsBound(s, c, vars, After(s, c, |s.params|, vars))
  {
    hide After, Bound, Homes, AllHomes, Values, Hold, CountOf;
    forall i {:trigger ParamBound(s, c, vars, After(s, c, |s.params|, vars), i)} | 0 <= i < |s.params|
      ensures ParamBound(s, c, vars, After(s, c, |s.params|, vars), i)
    {
      StaysBound(s, c, vars, i, |s.params|);
    }
  }

  lemma BoundStill(s: Scope, c: Call, vars: seq<Value>, st: Storage, st': Storage)
    requires Shaped(s) && LayoutOk(s.layout) && |c.argv| >= CountOf(s.params, Required, |s.params|)
    requires ParamsBound(s, c, vars, st)
    requires forall i, values {:trigger Hold(st, Homes(s.targets[i]), values)} ::
      0 <= i < |s.params| && Hold(st, Homes(s.targets[i]), values) ==> Hold(st', Homes(s.targets[i]), values)
    ensures ParamsBound(s, c, vars, st')
  {
    hide After, Bound, Homes, Values, Hold, CountOf;
    forall i {:trigger ParamBound(s, c, vars, st', i)} | 0 <= i < |s.params| ensures ParamBound(s, c, vars, st', i) {
      assert ParamBound(s, c, vars, st, i);
    }
  }

  /** Every parameter ends up with its argument, or with its default evaluated when all parameters
      before it were bound, taken apart for those in parentheses, the rest parameter with the rest and
      the block parameter with the block, each in its register or its slot of the tuple. */
  lemma PrologueBinds(s: Scope, c: Call, vars: seq<Value>) returns (n: nat)
    requires ScopeOk(s, |vars|) && CallOk(s, c)
    ensures var f := Steps(c, Running(0, Storage(vars, [])), n);
            && f.Running? && f.ip == |c.code| && Ready(s.layout, |vars|, f.st) && ParamsBound(s, c, vars, f.st)
            && (s.rest.Into? ==> Get(f.st, s.rest.home) == Array(RestOf(s.params, c.argv)))
            && (s.block.Some? ==> Get(f.st, s.block.value) == c.block)
  {
    hide Steps, Step, ParamsCode, After, CountOf, Stored, Get, Ready, Homes, AllHomes, OtherHomes, RestOf, AreHomes,
      AllDifferent, ParamsBound, Hold;
    n := RunsParams(s, c, vars, |s.params|);
    AlwaysReady(s, c, |s.params|, vars);
    AllAreBound(s, c, vars);
    var st := After(s, c, |s.params|, vars);
    if s.block.Some? {
      BlockStays(s, c, vars, |s.params|);
    }
    if s.rest.Into? {
      n := RunsRest(s, c, Running(0, Storage(vars, [])), n, st);
      BoundStill(s, c, vars, st, Stored(st, s.rest.home, Array(RestOf(s.params, c.argv)), s.layout.returnVar));
    } else {
      NothingLeft(s, c);
    }
  }

  lemma NothingLeft(s: Scope, c: Call)
    requires CallOk(s, c) && !s.rest.Into?
    ensures |c.code| == |ParamsCode(s, |s.params|)|
  {
  }
}
