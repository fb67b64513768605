/** Which variables live on heap tuples, and which enclosing tuples a closure carries. */
module Scopes {

  class Variable {
    ghost const home: Scope
    var heap: bool
    var loc: nat
    var owner: Scope?

    constructor (home: Scope, loc: nat)
      ensures this.home == home && this.loc == loc && !heap && owner == null
    {
      this.home := home;
      this.loc := loc;
      heap := false;
      owner := null;
    }
  }

  class Scope {
    const closure: bool
    const parent: Scope?
    ghost const depth: nat
    var variables: map<string, Variable>
    var variableList: seq<Variable>
    var heapVars: nat
    var referenced: seq<Scope>

    constructor (parent: Scope?, closure: bool)
      ensures this.parent == parent && this.closure == closure
      ensures depth == if parent == null then 0 else parent.depth + 1
      ensures variables == map[] && variableList == [] && heapVars == 0 && referenced == []
    {
      this.closure := closure;
      this.parent := parent;
      this.depth := if parent == null then 0 else parent.depth + 1;
      variables, variableList, heapVars, referenced := map[], [], 0, [];
    }

    method RequireScope(scope: Scope)
      modifies this`referenced
      ensures scope in referenced && (Distinct(old(referenced)) ==> Distinct(referenced))
      ensures (forall i, j :: 0 <= i < j < |old(referenced)| ==> old(referenced[i]) != old(referenced[j])) ==>
              (forall i, j :: 0 <= i < j < |referenced| ==> referenced[i] != referenced[j])
      ensures forall i :: 0 <= i < |old(referenced)| ==> i < |referenced| && referenced[i] == old(referenced[i])
      ensures referenced == if scope in old(referenced) then old(referenced) else old(referenced) + [scope]
    {
      if scope in referenced {
        return;
      }
      referenced := referenced + [scope];
    }
  }

  /** Every variable of o is visible in s, which is a closure inside of o. */
  ghost predicate Encloses(o: Scope, s: Scope)
    decreases s.depth
  {
    s.closure && s.parent != null && s.parent.depth < s.depth && (s.parent == o || Encloses(o, s.parent))
  }

  lemma {:induction false} EnclosingIsAbove(o: Scope, s: Scope)
    requires Encloses(o, s)
    ensures o.depth < s.depth
    decreases s.depth
  {
    if s.parent != o {
      EnclosingIsAbove(o, s.parent);
    }
  }

  // ----- what every sequence of definitions and uses keeps -----------------------------------------

  ghost predicate TreeOk(scopes: set<Scope>) {
    forall s <- scopes ::
      (s.closure ==> s.parent != null) && (s.parent != null ==> s.parent in scopes && s.depth == s.parent.depth + 1)
  }

  ghost predicate Carries(scopes: set<Scope>, s: Scope, o: Scope)
    reads scopes
  {
    o in scopes && Encloses(o, s) && o.heapVars > 0
  }

  /** What s does not find in its parent's own tuple its parent carries too. */
  ghost predicate Chained(scopes: set<Scope>, s: Scope, o: Scope)
    reads scopes
  {
    s.parent != null && s.parent in scopes && (s.parent == o || o in s.parent.referenced)
  }

  ghost predicate Distinct<T>(s: seq<T>) {
    forall i, j :: 0 <= i < j < |s| ==> s[i] != s[j]
  }

  /** A closure carries the tuples of enclosing scopes only, and each one once.  While a tuple is
      being handed down, the scopes whose parent is current may be ahead of it. */
  ghost predicate CapturesOk(scopes: set<Scope>, current: Scope?, owner: Scope?)
    reads scopes
  {
    forall s <- scopes :: Distinct(s.referenced) &&
      forall o <- s.referenced ::
        Carries(scopes, s, o) && (Chained(scopes, s, o) || (s.parent == current && o == owner))
  }

  /** A variable is in a register of its scope, or in a slot of its scope's tuple that is its alone. */
  ghost predicate VariablesOk(scopes: set<Scope>, variables: set<Variable>)
    reads scopes, variables
  {
    && (forall v <- variables :: v.home in scopes)
    && (forall v <- variables :: if v.heap then v.owner == v.home && v.loc < v.home.heapVars
                                 else v.loc < |v.home.variableList| && v.home.variableList[v.loc] == v)
    && (forall v, w ::
        v in variables && w in variables && v.heap && w.heap && v.home == w.home && v.loc == w.loc ==> v == w)
  }

  ghost predicate NamesOk(scopes: set<Scope>, variables: set<Variable>)
    reads scopes
  {
    forall s <- scopes :: forall name <- s.variables :: s.variables[name] in variables && s.variables[name].home == s
  }

  ghost predicate Sound(scopes: set<Scope>, variables: set<Variable>)
    reads scopes, variables
  {
    TreeOk(scopes) && CapturesOk(scopes, null, null) && VariablesOk(scopes, variables) && NamesOk(scopes, variables)
  }

  /** What a closure carries: the tuples of scopes around it that have one, each once, and what its
      parent's code has at hand. */
  lemma CarriedTuples(scopes: set<Scope>, variables: set<Variable>, s: Scope, i: nat)
    requires Sound(scopes, variables) && s in scopes && i < |s.referenced|
    ensures var o := s.referenced[i];
      && o in scopes && Encloses(o, s) && o.heapVars > 0 && s.parent != null
      && (s.parent == o || o in s.parent.referenced)
      && forall j :: 0 <= j < |s.referenced| && j != i ==> s.referenced[j] != o
  {
    hide Encloses;
    assert Carries(scopes, s, s.referenced[i]) && Chained(scopes, s, s.referenced[i]);
  }

  /** Code in scope s can get at v. */
  ghost predicate Accessible(s: Scope, v: Variable)
    reads s, v
  {
    v.home == s || (v.heap && v.owner == v.home && v.home in s.referenced)
  }

  /** What could be got at still can. */
  twostate predicate StillAccessible(scopes: set<Scope>, variables: set<Variable>)
    reads scopes, variables
  {
    forall s <- scopes, v <- variables :: old(Accessible(s, v)) ==> Accessible(s, v)
  }

  // ----- the operations ----------------------------------------------------------------------------

  /** What a use of a captured variable changes: nothing is taken away. */
  twostate predicate Extended(scopes: set<Scope>, variables: set<Variable>)
    reads scopes, variables
  {
    && (forall s <- scopes :: Continues(old(s.referenced), s.referenced))
    && (forall s <- scopes :: old(s.heapVars) <= s.heapVars)
    && (forall v <- variables :: old(v.heap) ==> v.heap && v.loc == old(v.loc) && v.owner == old(v.owner))
  }

  ghost predicate Continues(a: seq<Scope>, b: seq<Scope>) {
    |a| <= |b| && b[..|a|] == a
  }

  lemma ContinuesSelf()
    ensures forall a: seq<Scope> :: Continues(a, a)
  {
  }

  lemma ContinuesMore(a: seq<Scope>, b: seq<Scope>, x: Scope)
    requires Continues(a, b)
    ensures Continues(a, b + [x])
  {
  }

  twostate predicate SameVariables(scopes: set<Scope>)
    reads scopes
  {
    forall s <- scopes :: s.variables == old(s.variables) && s.variableList == old(s.variableList)
  }

  /** More slots in a tuple do no harm to the captures. */
  twostate lemma CapturesStay(scopes: set<Scope>)
    requires forall s <- scopes :: s.referenced == old(s.referenced) && s.heapVars >= old(s.heapVars)
    ensures old(CapturesOk(scopes, null, null)) ==> CapturesOk(scopes, null, null)
  {
    if old(CapturesOk(scopes, null, null)) {
      forall s <- scopes
        ensures Distinct(s.referenced)
        ensures forall o <- s.referenced :: Carries(scopes, s, o) && Chained(scopes, s, o)
      {
        forall o <- s.referenced
          ensures Carries(scopes, s, o) && Chained(scopes, s, o)
        {
          assert old(Carries(scopes, s, o)) && old(Chained(scopes, s, o));
        }
      }
    }
  }

  /** The variable moves to its scope's tuple. */
  method MoveToHeap(owner: Scope, v: Variable, ghost scopes: set<Scope>, ghost variables: set<Variable>)
    requires Sound(scopes, variables) && v in variables && v.home == owner
    modifies owner`heapVars, v
    ensures Sound(scopes, variables) && Extended(scopes, variables) && SameVariables(scopes)
    ensures owner.heapVars > 0 && v.heap && v.owner == owner
    ensures StillAccessible(scopes, variables)
  {
    hide Encloses, CapturesOk;
    if !v.heap {
      v.heap := true;
      v.loc := owner.heapVars;
      owner.heapVars := owner.heapVars + 1;
      v.owner := owner;
      CapturesStay(scopes);
    }
    forall s <- scopes, w <- variables | old(Accessible(s, w))
      ensures Accessible(s, w)
    {
      assert s.referenced == old(s.referenced);
    }
  }

  /** One step of the way up. */
  method HandDown(current: Scope, owner: Scope, ghost scopes: set<Scope>, ghost variables: set<Variable>)
    requires TreeOk(scopes) && CapturesOk(scopes, current, owner) && current in scopes && owner in scopes
    requires Encloses(owner, current) && owner.heapVars > 0
    requires VariablesOk(scopes, variables) && NamesOk(scopes, variables)
    modifies current`referenced
    ensures VariablesOk(scopes, variables) && NamesOk(scopes, variables)
    ensures StillAccessible(scopes, variables)
    ensures CapturesOk(scopes, current.parent, owner) && owner in current.referenced
    ensures current.referenced == old(current.referenced) || current.referenced == old(current.referenced) + [owner]
  {
    current.RequireScope(owner);
    forall s <- scopes, w <- variables | old(Accessible(s, w))
      ensures Accessible(s, w)
    {
      assert w.home != s ==> w.home in old(s.referenced);
    }
    forall s <- scopes
      ensures Distinct(s.referenced)
      ensures forall o <- s.referenced ::
        Carries(scopes, s, o) && (Chained(scopes, s, o) || (s.parent == current.parent && o == owner))
    {
      forall o <- s.referenced
        ensures Carries(scopes, s, o) && (Chained(scopes, s, o) || (s.parent == current.parent && o == owner))
      {
        assert o in old(s.referenced) || (s == current && o == owner);
      }
    }
  }

  lemma OneUp(owner: Scope, s: Scope)
    requires Encloses(owner, s)
    ensures s.parent != null && s.parent.depth < s.depth && (s.parent == owner || Encloses(owner, s.parent))
  {
  }

  lemma ParentInTree(scopes: set<Scope>, s: Scope)
    requires TreeOk(scopes) && s in scopes && s.parent != null
    ensures s.parent in scopes
  {
  }

  /** Once the owner is reached nothing is pending. */
  lemma HandedDown(scopes: set<Scope>, owner: Scope)
    requires TreeOk(scopes) && owner in scopes
    requires CapturesOk(scopes, owner, owner)
    ensures CapturesOk(scopes, null, null)
  {
  }

  lemma NothingPending(scopes: set<Scope>, current: Scope, owner: Scope)
    requires CapturesOk(scopes, null, null)
    ensures CapturesOk(scopes, current, owner)
  {
  }

  lemma AccessibleWhen(s: Scope, v: Variable)
    requires v.home == s || (v.heap && v.owner == v.home && v.home in s.referenced)
    ensures Accessible(s, v)
  {
  }

  /** Every scope from this one up to the owner gets to carry the owner's tuple. */
  method RequireVar(self: Scope, owner: Scope, v: Variable, ghost scopes: set<Scope>, ghost variables: set<Variable>)
    requires Sound(scopes, variables) && self in scopes && v in variables && v.home == owner && Encloses(owner, self)
      && owner in scopes
    modifies scopes, v
    ensures Sound(scopes, variables) && Extended(scopes, variables) && SameVariables(scopes)
    ensures Accessible(self, v) && StillAccessible(scopes, variables)
  {
    hide Encloses, VariablesOk, NamesOk, CapturesOk, TreeOk, Accessible, Continues;
    MoveToHeap(owner, v, scopes, variables);
    var current: Scope := self;
    NothingPending(scopes, current, owner);
    while current != owner
      invariant current in scopes && (current == owner || Encloses(owner, current)) && owner.heapVars > 0 && v.heap
        && v.owner == owner
      invariant TreeOk(scopes) && VariablesOk(scopes, variables) && NamesOk(scopes, variables)
        && CapturesOk(scopes, current, owner)
      invariant Extended(scopes, variables) && SameVariables(scopes)
      invariant StillAccessible(scopes, variables)
      invariant current == self || owner in self.referenced
      decreases current.depth
    {
      OneUp(owner, current);
      ContinuesMore(old(current.referenced), current.referenced, owner);
      HandDown(current, owner, scopes, variables);
      ParentInTree(scopes, current);
      current := current.parent;
    }
    HandedDown(scopes, owner);
    AccessibleWhen(self, v);
  }

  ghost predicate Visible(o: Scope, s: Scope) {
    o == s || Encloses(o, s)
  }

  /** The innermost visible scope that has the name. */
  method Defined(self: Scope, name: string, recursive: bool, ghost scopes: set<Scope>) returns (s: Scope?)
    requires TreeOk(scopes) && self in scopes
    ensures s != null ==> s in scopes && (if recursive then Visible(s, self) else s == self) && name in s.variables
    ensures s != null ==> forall t <- scopes :: Visible(t, self) && t.depth > s.depth ==> name !in t.variables
    ensures s == null ==> name !in self.variables
    ensures s == null && recursive ==> forall t <- scopes :: Visible(t, self) ==> name !in t.variables
  {
    EnclosingIsBelow(self, scopes);
    if name in self.variables {
      return self;
    }
    var current := self;
    if recursive {
      while current.closure
        invariant current in scopes && Visible(current, self)
        invariant forall t <- scopes :: Visible(t, self) ==> name !in t.variables || Encloses(t, current)
        decreases current.depth
      {
        ghost var below := current;
        current := current.parent;
        VisibleParent(current, below, self);
        if name in current.variables {
          EnclosingIsBelow(current, scopes);
          return current;
        }
      }
    }
    return null;
  }

  lemma EnclosingIsBelow(s: Scope, scopes: set<Scope>)
    ensures forall t <- scopes :: Encloses(t, s) ==> t.depth < s.depth
  {
    forall t <- scopes | Encloses(t, s)
      ensures t.depth < s.depth
    {
      EnclosingIsAbove(t, s);
    }
  }

  lemma VisibleParent(parent: Scope, s: Scope, self: Scope)
    requires Visible(s, self) && s.closure && s.parent == parent && parent.depth < s.depth
    ensures Visible(parent, self)
  {
    EnclosesParent(parent, s, self);
  }

  lemma {:induction false} EnclosesParent(parent: Scope, s: Scope, self: Scope)
    requires Visible(s, self) && s.closure && s.parent == parent && parent.depth < s.depth
    ensures Encloses(parent, self)
    decreases self.depth
  {
    if s != self && s != self.parent {
      EnclosesParent(parent, s, self.parent);
    }
  }

  type Namings = map<Scope, map<string, Variable>>

  ghost function Names(scopes: set<Scope>): Namings
    reads scopes
  {
    map s <- scopes :: s.variables
  }

  /** What a name stands for in a scope: the scope's own variable, or for a closure that of the
      scope around it. */
  ghost function Resolve(names: Namings, s: Scope, name: string): Variable?
    decreases s.depth
  {
    if s in names && name in names[s] then names[s][name]
    else if s.closure && s.parent != null && s.parent.depth < s.depth then Resolve(names, s.parent, name)
    else null
  }

  /** The innermost visible scope with the name is the one that resolves it. */
  lemma {:induction false} ResolveFindsInnermost(scopes: set<Scope>, self: Scope, name: string, s: Scope?)
    requires TreeOk(scopes) && self in scopes
    requires s != null ==> s in scopes && Visible(s, self) && name in s.variables
    requires s != null ==> forall t <- scopes :: Visible(t, self) && t.depth > s.depth ==> name !in t.variables
    requires s == null ==> forall t <- scopes :: Visible(t, self) ==> name !in t.variables
    ensures Resolve(Names(scopes), self, name) == if s == null then null else s.variables[name]
    decreases self.depth
  {
    if s != self {
      assert Visible(self, self);
      EnclosingIsBelow(self, scopes);
      if self.closure {
        assert forall t <- scopes :: Visible(t, self.parent) ==> Visible(t, self);
        ResolveFindsInnermost(scopes, self.parent, name, s);
      }
    }
  }

  /** alloc_var: the next register of the scope. */
  method AllocVar(self: Scope, ghost scopes: set<Scope>, ghost variables: set<Variable>) returns (v: Variable)
    requires Sound(scopes, variables) && self in scopes
    modifies self`variableList
    ensures fresh(v) && v.home == self && Sound(scopes, variables + {v}) && Extended(scopes, variables)
    ensures self.variableList == old(self.variableList) + [v]
  {
    hide Encloses, CapturesOk;
    v := new Variable(self, |self.variableList|);
    self.variableList := self.variableList + [v];
    CapturesStay(scopes);
  }

  method Define(self: Scope, name: string, ghost scopes: set<Scope>, ghost variables: set<Variable>)
    returns (v: Variable)
    requires Sound(scopes, variables) && self in scopes
    modifies self`variableList, self`variables
    ensures v.home == self && (v in variables || fresh(v)) && Sound(scopes, variables + {v})
      && Extended(scopes, variables)
    ensures self.variables == old(self.variables)[name := v]
    ensures if name in old(self.variables) then v == old(self.variables[name]) else fresh(v)
  {
    hide Encloses, CapturesOk, Continues, StillAccessible, TreeOk;
    ContinuesSelf();
    if name in self.variables {
      v := self.variables[name];
      assert variables + {v} == variables;
      return;
    }
    v := AllocVar(self, scopes, variables);
    label Allocated:
    self.variables := self.variables[name := v];
    CapturesStay@Allocated(scopes);
  }

  /** get_var: the variable a name stands for in a scope, made known where it was not. */
  method GetVar(self: Scope, name: string, ghost scopes: set<Scope>, ghost variables: set<Variable>)
    returns (v: Variable)
    requires Sound(scopes, variables) && self in scopes
    modifies scopes, variables
    ensures v in variables || fresh(v)
    ensures Sound(scopes, variables + {v}) && Extended(scopes, variables) && Accessible(self, v)
      && StillAccessible(scopes, variables)
    ensures forall s <- scopes, i :: 0 <= i < |old(s.referenced)| ==>
              i < |s.referenced| && s.referenced[i] == old(s.referenced[i])
    ensures v.home in scopes && Visible(v.home, self) && name in v.home.variables && v.home.variables[name] == v
    ensures forall s <- scopes :: Visible(s, self) && s.depth > v.home.depth ==> name !in s.variables
    ensures var known := old(Resolve(Names(scopes), self, name));
            if known != null then v == known && Names(scopes) == old(Names(scopes))
            else fresh(v) && v.home == self
                 && Names(scopes) == old(Names(scopes))[self := old(self.variables)[name := v]]
  {
    hide CapturesOk, VariablesOk, Encloses, NamesOk, Resolve;
    var scope := Defined(self, name, true, scopes);
    ResolveFindsInnermost(scopes, self, name, scope);
    if scope != null {
      VariableOf(scopes, variables, scope, name);
      v := scope.variables[name];
      assert variables + {v} == variables;
      if scope != self {
        RequireVar(self, scope, v, scopes, variables);
      }
      assert Names(scopes) == old(Names(scopes));
    } else {
      v := Define(self, name, scopes, variables);
      EnclosingIsBelow(self, scopes);
      assert Names(scopes) == old(Names(scopes))[self := old(self.variables)[name := v]];
    }
  }

  lemma VariableOf(scopes: set<Scope>, variables: set<Variable>, s: Scope, name: string)
    requires Sound(scopes, variables) && s in scopes && name in s.variables
    ensures s.variables[name] in variables && s.variables[name].home == s
  {
  }
}
