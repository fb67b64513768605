/** A whole parse as the scopes see it, the code for reading variables and making closures, and
    which tuples that code finds when it runs. */
module Closures {
  import opened Scopes

  datatype Step = Enter(closure: bool) | Leave | Name(name: string) | Parameter(name: string) | Temporary

  /** What a step does to the scope that is open and to the names that are known, and the variable
      it uses. */
  ghost predicate StepOk(step: Step, s: Scope, names: Namings, s': Scope, names': Namings, v: Variable?) {
    match step
    case Enter(closure) =>
      v == null && s' !in names && s'.parent == s && s'.closure == closure && names' == names[s' := map[]]
    case Leave => v == null && s' == (if s.parent != null then s.parent else s) && names' == names
    case Name(name) =>
      && v != null && s' == s && s in names
      && if Resolve(names, s, name) != null then v == Resolve(names, s, name) && names' == names
         else Unnamed(names, v) && v.home == s && names' == names[s := names[s][name := v]]
    case Parameter(name) =>
      && v != null && s' == s && s in names && v.home == s && names' == names[s := names[s][name := v]]
      && if name in names[s] then v == names[s][name] else Unnamed(names, v)
    case Temporary => v != null && s' == s && v.home == s && Unnamed(names, v) && names' == names
  }

  /** No name stands for v. */
  ghost predicate Unnamed(names: Namings, v: Variable) {
    forall s <- names, name <- names[s] :: names[s][name] != v
  }

  ghost predicate NamesAmong(names: Namings, variables: set<Variable>) {
    forall s <- names, name <- names[s] :: names[s][name] in variables
  }

  lemma NamesAreVariables(scopes: set<Scope>, variables: set<Variable>)
    requires Sound(scopes, variables)
    ensures NamesAmong(Names(scopes), variables)
  {
  }

  lemma OthersAreUnnamed(names: Namings, variables: set<Variable>, v: Variable)
    requires NamesAmong(names, variables)
    ensures v !in variables ==> Unnamed(names, v)
  {
  }

  /** Every use of a variable can be compiled. */
  ghost predicate UsesOk(scopes: set<Scope>, variables: set<Variable>, uses: set<(Scope, Variable)>)
    reads scopes, variables
  {
    forall use <- uses :: use.0 in scopes && use.1 in variables && Accessible(use.0, use.1)
  }

  lemma WithScope(scopes: set<Scope>, variables: set<Variable>, uses: set<(Scope, Variable)>, s: Scope)
    requires Sound(scopes, variables) && UsesOk(scopes, variables, uses) && s !in scopes
    requires (s.closure ==> s.parent != null)
      && (s.parent != null ==> s.parent in scopes && s.depth == s.parent.depth + 1)
    requires s.variables == map[] && s.referenced == []
    ensures Sound(scopes + {s}, variables) && UsesOk(scopes + {s}, variables, uses)
  {
  }

  lemma ScopeInTree(scopes: set<Scope>, variables: set<Variable>, s: Scope)
    requires Sound(scopes, variables) && s in scopes
    ensures s.parent != null ==> s.parent in scopes
  {
  }

  /** The scopes and variables of a document as its parser goes through it. */
  class Document {
    var scope: Scope
    ghost var scopes: set<Scope>
    ghost var variables: set<Variable>
    ghost var uses: set<(Scope, Variable)>

    ghost predicate Valid()
      reads this, scopes, variables
    {
      Sound(scopes, variables) && scope in scopes && UsesOk(scopes, variables, uses)
    }

    ghost function Known(): Namings
      reads this, scopes
    {
      Names(scopes)
    }

    constructor ()
      ensures Valid() && fresh(scopes) && fresh(variables) && uses == {}
      ensures scope.parent == null && !scope.closure && Known() == map[scope := map[]]
    {
      var top := new Scope(null, false);
      scope := top;
      scopes, variables, uses := {top}, {}, {};
    }

    method EnterScope(closure: bool)
      requires Valid()
      modifies this`scope, this`scopes
      ensures Valid() && fresh(scope) && scopes == old(scopes) + {scope}
      ensures StepOk(Enter(closure), old(scope), old(Known()), scope, Known(), null)
    {
      hide Sound, UsesOk, Encloses;
      var inner := new Scope(scope, closure);
      ScopeInTree(scopes, variables, scope);
      WithScope(scopes, variables, uses, inner);
      scope := inner;
      scopes := scopes + {inner};
      assert Known() == old(Known())[inner := map[]];
    }

    method LeaveScope()
      requires Valid()
      modifies this`scope
      ensures Valid() && StepOk(Leave, old(scope), old(Known()), scope, Known(), null)
    {
      if scope.parent != null {
        scope := scope.parent;
      }
    }

    /** One more use, of a variable that may be new. */
    ghost method Record(v: Variable)
      requires Sound(scopes, variables + {v}) && scope in scopes && Accessible(scope, v)
      requires UsesOk(scopes, variables, uses)
      modifies this`variables, this`uses
      ensures Valid() && variables == old(variables) + {v} && uses == old(uses) + {(scope, v)}
    {
      OneMoreUse(scopes, variables, uses, scope, v);
      variables := variables + {v};
      uses := uses + {(scope, v)};
    }

    method UseName(name: string) returns (v: Variable)
      requires Valid()
      modifies this`variables, this`uses, scopes, variables
      ensures Valid() && Extended(scopes, old(variables)) && fresh(variables - old(variables))
      ensures variables == old(variables) + {v} && uses == old(uses) + {(scope, v)}
      ensures StepOk(Name(name), scope, old(Known()), scope, Known(), v)
    {
      hide Sound, Encloses, Extended, Visible, Resolve, Unnamed, NamesAmong;
      ghost var known := Known();
      NamesAreVariables(scopes, variables);
      v := GetVar(scope, name, scopes, variables);
      OthersAreUnnamed(known, variables, v);
      assert StepOk(Name(name), scope, known, scope, Known(), v);
      Record(v);
    }

    method UseParameter(name: string) returns (v: Variable)
      requires Valid()
      modifies this`variables, this`uses, scope
      ensures Valid() && Extended(scopes, old(variables)) && fresh(variables - old(variables))
      ensures variables == old(variables) + {v} && uses == old(uses) + {(scope, v)}
      ensures StepOk(Parameter(name), scope, old(Known()), scope, Known(), v)
    {
      hide Sound, Encloses, Visible, Unnamed, NamesAmong;
      ghost var known := Known();
      NamesAreVariables(scopes, variables);
      v := Define(scope, name, scopes, variables);
      OthersAreUnnamed(known, variables, v);
      assert Known() == known[scope := known[scope][name := v]];
      Record(v);
    }

    method UseTemporary() returns (v: Variable)
      requires Valid()
      modifies this`variables, this`uses, scope
      ensures Valid() && Extended(scopes, old(variables)) && fresh(variables - old(variables))
      ensures variables == old(variables) + {v} && uses == old(uses) + {(scope, v)}
      ensures StepOk(Temporary, scope, old(Known()), scope, Known(), v)
    {
      hide Sound, Encloses, Visible, Unnamed, NamesAmong;
      ghost var known := Known();
      NamesAreVariables(scopes, variables);
      v := AllocVar(scope, scopes, variables);
      OthersAreUnnamed(known, variables, v);
      assert Known() == known;
      Record(v);
    }

    /** One step, and the variable it uses. */
    method Take(step: Step) returns (v: Variable?)
      requires Valid()
      modifies this, scopes, variables
      ensures Valid() && old(scopes) <= scopes && old(variables) <= variables
      ensures fresh(scopes - old(scopes)) && fresh(variables - old(variables))
      ensures Extended(old(scopes), old(variables))
      ensures StepOk(step, old(scope), old(Known()), scope, Known(), v)
      ensures uses == old(uses) + if v == null then {} else {(old(scope), v)}
    {
      hide Sound, UsesOk, Encloses, StepOk;
      v := null;
      match step
      case Enter(closure) => EnterScope(closure);
      case Leave => LeaveScope();
      case Name(name) => v := UseName(name);
      case Parameter(name) => v := UseParameter(name);
      case Temporary => v := UseTemporary();
    }
  }

  lemma OneMoreUse(scopes: set<Scope>, variables: set<Variable>, uses: set<(Scope, Variable)>, s: Scope, v: Variable)
    requires UsesOk(scopes, variables, uses) && s in scopes && Accessible(s, v)
    ensures UsesOk(scopes, variables + {v}, uses + {(s, v)})
  {
  }

  /** A parse: before step i scope inside[i] is open and known[i] are the names, and the step uses
      the variable used[i]. */
  ghost predicate ParseOk(steps: seq<Step>, inside: seq<Scope>, known: seq<Namings>, used: seq<Variable?>) {
    && |used| == |steps| && |inside| == |known| == |steps| + 1
    && forall i {:trigger TakenOk(steps, inside, known, used, i)} ::
       0 <= i < |steps| ==> TakenOk(steps, inside, known, used, i)
  }

  ghost predicate TakenOk(steps: seq<Step>, inside: seq<Scope>, known: seq<Namings>, used: seq<Variable?>, i: nat) {
    && i < |steps| && i < |used| && i + 1 < |inside| && i + 1 < |known|
    && StepOk(steps[i], inside[i], known[i], inside[i + 1], known[i + 1], used[i])
  }

  /** What each step of a parse does, case by case. */
  lemma EachStep(steps: seq<Step>, inside: seq<Scope>, known: seq<Namings>, used: seq<Variable?>, i: nat)
    requires ParseOk(steps, inside, known, used) && i < |steps|
    ensures var s, s', names, names', v := inside[i], inside[i + 1], known[i], known[i + 1], used[i];
            match steps[i]
            case Enter(closure) =>
              v == null && s' !in names && s'.parent == s && s'.closure == closure && names' == names[s' := map[]]
            case Leave => v == null && s' == (if s.parent == null then s else s.parent) && names' == names
            case Name(name) =>
              && v != null && s' == s && s in names
              && var found := Resolve(names, s, name);
                 if found != null then v == found && names' == names
                 else && v.home == s && names' == names[s := names[s][name := v]]
                      && forall t <- names, other <- names[t] :: names[t][other] != v
            case Parameter(name) =>
              && v != null && s' == s && s in names && v.home == s && names' == names[s := names[s][name := v]]
              && if name in names[s] then v == names[s][name]
                 else forall t <- names, other <- names[t] :: names[t][other] != v
            case Temporary =>
              && v != null && s' == s && v.home == s && names' == names
              && forall t <- names, other <- names[t] :: names[t][other] != v
  {
    hide Resolve;
    assert TakenOk(steps, inside, known, used, i);
  }

  lemma OneMoreStep(steps: seq<Step>, inside: seq<Scope>, known: seq<Namings>, used: seq<Variable?>,
                    step: Step, s: Scope, names: Namings, v: Variable?)
    requires ParseOk(steps, inside, known, used) && StepOk(step, inside[|steps|], known[|steps|], s, names, v)
    ensures ParseOk(steps + [step], inside + [s], known + [names], used + [v])
  {
    hide StepOk;
    var a, b, c, d := steps + [step], inside + [s], known + [names], used + [v];
    forall i {:trigger TakenOk(a, b, c, d, i)} | 0 <= i < |a|
      ensures TakenOk(a, b, c, d, i)
    {
      if i < |steps| {
        assert TakenOk(steps, inside, known, used, i);
      }
    }
  }

  lemma NothingTaken(s: Scope, names: Namings)
    ensures ParseOk([], [s], [names], [])
  {
  }

  /** Whatever a document defines and uses in whatever order, every name stands for the variable of
      the innermost scope that has it, and in the end the code of every scope can get at every
      variable the scope has used. */
  method Parse(steps: seq<Step>)
    returns (d: Document, ghost inside: seq<Scope>, ghost known: seq<Namings>, ghost used: seq<Variable?>)
    ensures fresh(d) && d.Valid() && ParseOk(steps, inside, known, used)
    ensures inside[0].parent == null && !inside[0].closure && known[0] == map[inside[0] := map[]]
    ensures d.scope == inside[|steps|] && d.Known() == known[|steps|]
    ensures forall i {:trigger used[i]} :: 0 <= i < |steps| && used[i] != null ==>
              inside[i] in d.scopes && used[i] in d.variables && Accessible(inside[i], used[i])
  {
    hide StepOk, ParseOk, Sound, Extended;
    d := new Document();
    inside, known, used := [d.scope], [d.Known()], [];
    NothingTaken(d.scope, d.Known());
    for i := 0 to |steps|
      invariant fresh(d) && fresh(d.scopes) && fresh(d.variables) && d.Valid()
      invariant |used| == i && |inside| == |known| == i + 1 && d.scope == inside[i] && d.Known() == known[i]
      invariant ParseOk(steps[..i], inside, known, used)
      invariant inside[0].parent == null && !inside[0].closure && known[0] == map[inside[0] := map[]]
      invariant forall k {:trigger used[k]} :: 0 <= k < i && used[k] != null ==> (inside[k], used[k]) in d.uses
    {
      var v := d.Take(steps[i]);
      OneMoreStep(steps[..i], inside, known, used, steps[i], d.scope, d.Known(), v);
      assert steps[..i] + [steps[i]] == steps[..i + 1];
      inside, known, used := inside + [d.scope], known + [d.Known()], used + [v];
    }
    assert steps[..|steps|] == steps;
    forall i {:trigger used[i]} | 0 <= i < |steps| && used[i] != null
      ensures inside[i] in d.scopes && used[i] in d.variables && Accessible(inside[i], used[i])
    {
      UseIsOk(d.scopes, d.variables, d.uses, (inside[i], used[i]));
    }
  }

  lemma UseIsOk(scopes: set<Scope>, variables: set<Variable>, uses: set<(Scope, Variable)>, use: (Scope, Variable))
    requires UsesOk(scopes, variables, uses) && use in uses
    ensures use.0 in scopes && use.1 in variables && Accessible(use.0, use.1)
  {
  }
}
