/** Exceptions inside of a frame: which handler takes one, and which ensures run on the way. */
module Unwinding {

  type Class = nat
  type Value = int

  datatype Option<T> = None | Some(value: T)

  const STANDARD_ERROR: Class := 0

  datatype Kind = BreakException(target: nat, value: Value, dst: int)
                | RedoException(pos: nat)
                | NextException(value: Value)
                | ReturnException(target: nat, value: Value)
                | OrdinaryException

  /** ancestors is what kind_of is asked of. */
  datatype Exception = Exception(kind: Kind, ancestors: set<Class>)

  /** variable is the register the rescue wants the exception in. */
  datatype Handler = StandardHandler(rescue: nat, variable: int) | FilterHandler(rescue: nat, variable: int, test: nat)

  datatype LoopLabels = LoopLabels(next: nat, end: nat)

  datatype Block = NoBlock | Block(id: nat, parent: Block, handlers: seq<Handler>, ensureLabel: Option<nat>,
                                   loop: Option<LoopLabels>)

  /** The pieces of the frame's code that run while an exception is under way. */
  datatype Event = Tested(block: nat, handler: nat) | Ensured(block: nat)

  /** What a test leaves in its register may depend on all that ran before it: the classes among the
      elements of a list, or nothing if it is not a list. */
  type World = seq<Event> -> Option<seq<Class>>

  datatype Verdict =
    | Resumed(ip: nat, handler: Option<Handler>)
    | LeftWith(value: Value)
    | Rethrown
    | Continued(value: Value, dst: int)

  // ----- what is promised ----------------------------------------------------------------------

  predicate InList(e: Exception, list: Option<seq<Class>>) {
    list.Some? && exists i :: 0 <= i < |list.value| && list.value[i] in e.ancestors
  }

  /** The tests of the first n handlers of a block. */
  function Tests(b: Block, n: nat): seq<Event>
    requires b.Block? && n <= |b.handlers|
  {
    if n == 0 then [] else Tests(b, n - 1) + if b.handlers[n - 1].FilterHandler? then [Tested(b.id, n - 1)] else []
  }

  /** Handler h of b takes e when log has happened before the block was reached. */
  predicate Matches(world: World, e: Exception, b: Block, log: seq<Event>, h: nat)
    requires b.Block? && h < |b.handlers|
  {
    match b.handlers[h]
    case StandardHandler(_, _) => STANDARD_ERROR in e.ancestors
    case FilterHandler(_, _, _) => InList(e, world(log + Tests(b, h + 1)))
  }

  predicate NoneMatches(world: World, e: Exception, b: Block, log: seq<Event>, n: nat)
    requires b.Block? && n <= |b.handlers|
  {
    forall h :: 0 <= h < n ==> !Matches(world, e, b, log, h)
  }

  predicate FirstMatch(world: World, e: Exception, b: Block, log: seq<Event>, h: nat) {
    b.Block? && h < |b.handlers| && Matches(world, e, b, log, h) && NoneMatches(world, e, b, log, h)
  }

  ghost predicate Rescues(world: World, e: Exception, b: Block, log: seq<Event>)
    requires b.Block?
  {
    exists h :: FirstMatch(world, e, b, log, h)
  }

  predicate LoopTakes(e: Exception, b: Block) {
    b.Block? && b.loop.Some? && (e.kind.BreakException? || e.kind.RedoException? || e.kind.NextException?)
  }

  /** What a block that does not take an exception adds to the log. */
  function Passed(b: Block): seq<Event>
    requires b.Block?
  {
    Tests(b, |b.handlers|) + if b.ensureLabel.Some? then [Ensured(b.id)] else []
  }

  /** b and the blocks around it, innermost first. */
  function Chain(b: Block): (r: seq<Block>)
    ensures forall i {:trigger r[i]} :: 0 <= i < |r| ==> r[i].Block?
  {
    if b.NoBlock? then [] else [b] + Chain(b.parent)
  }

  /** What has run when the k innermost blocks have let the exception pass. */
  function History(chain: seq<Block>, k: nat): seq<Event>
    requires k <= |chain| && forall i {:trigger chain[i]} :: 0 <= i < |chain| ==> chain[i].Block?
  {
    if k == 0 then [] else History(chain, k - 1) + Passed(chain[k - 1])
  }

  ghost predicate Takes(world: World, e: Exception, b: Block, log: seq<Event>)
    requires b.Block?
  {
    Rescues(world, e, b, log) || LoopTakes(e, b)
  }

  function LoopTarget(e: Exception, b: Block): nat
    requires LoopTakes(e, b)
  {
    match e.kind
    case BreakException(_, _, _) => b.loop.value.end
    case RedoException(pos) => pos
    case _ => b.loop.value.next
  }

  /** What happens at the frame's own level. */
  function AtFrame(e: Exception, code: nat): Verdict {
    match e.kind
    case RedoException(pos) => Resumed(pos, None)
    case NextException(value) => LeftWith(value)
    case ReturnException(target, value) => if target == code then LeftWith(value) else Rethrown
    case _ => Rethrown
  }

  /** An exception raised in block start, after log, in a frame of the given code. */
  datatype Search = Search(world: World, e: Exception, start: Block, log: seq<Event>, code: nat)

  function Past(s: Search, k: nat): seq<Event>
    requires k <= |Chain(s.start)|
  {
    s.log + History(Chain(s.start), k)
  }

  /** The k innermost blocks have let the exception pass. */
  ghost predicate Passing(s: Search, k: nat) {
    k <= |Chain(s.start)| && forall i :: 0 <= i < k ==> !Takes(s.world, s.e, Chain(s.start)[i], Past(s, i))
  }

  ghost predicate RescuedAt(s: Search, k: nat, h: nat, verdict: Verdict, log: seq<Event>) {
    Passing(s, k) && k < |Chain(s.start)| &&
    var b := Chain(s.start)[k];
    FirstMatch(s.world, s.e, b, Past(s, k), h) && verdict == Resumed(b.handlers[h].rescue, Some(b.handlers[h]))
      && log == Past(s, k) + Tests(b, h + 1)
  }

  ghost predicate LoopTakesAt(s: Search, k: nat, verdict: Verdict, log: seq<Event>) {
    Passing(s, k) && k < |Chain(s.start)| &&
    var b := Chain(s.start)[k];
    !Rescues(s.world, s.e, b, Past(s, k)) && LoopTakes(s.e, b) && verdict == Resumed(LoopTarget(s.e, b), None)
    && log == Past(s, k) + Tests(b, |b.handlers|)
  }

  ghost predicate LeavesBlocks(s: Search, verdict: Verdict, log: seq<Event>) {
    var k := |Chain(s.start)|;
    Passing(s, k) && verdict == AtFrame(s.e, s.code) && log == Past(s, k)
  }

  ghost predicate UnwoundAt(s: Search, k: nat, verdict: Verdict, log: seq<Event>) {
    || (exists h: nat :: RescuedAt(s, k, h, verdict, log))
    || LoopTakesAt(s, k, verdict, log)
    || (k == |Chain(s.start)| && LeavesBlocks(s, verdict, log))
  }

  /** The block around block k; none when all blocks have been left. */
  function Around(s: Search, k: nat): Block {
    if k < |Chain(s.start)| then Chain(s.start)[k].parent else NoBlock
  }

  /** The first block outward that has a matching handler or, failing that, a loop entry for the
      exception takes it, with its first matching handler; the tests up to there and the ensures
      strictly inside of that block have run in order, each once, and nothing else has.  What is
      raised from then on belongs to the block around it, which is current. */
  ghost predicate Unwound(s: Search, verdict: Verdict, log: seq<Event>, current: Block) {
    exists k: nat :: UnwoundAt(s, k, verdict, log) && current == Around(s, k)
  }

  lemma {:induction false} ChainFrom(b: Block, k: nat)
    requires k < |Chain(b)|
    ensures Chain(Chain(b)[k]) == Chain(b)[k..] && Chain(Chain(b)[k].parent) == Chain(b)[k + 1..]
  {
    if k > 0 {
      ChainFrom(b.parent, k - 1);
    }
  }

  /** The ensures of a log, in order. */
  function Ensures(log: seq<Event>): seq<nat> {
    if log == [] then []
    else Ensures(log[..|log| - 1]) + match log[|log| - 1] case Ensured(id) => [id] case Tested(_, _) => []
  }

  lemma {:induction false} EnsuresConcat(a: seq<Event>, b: seq<Event>)
    ensures Ensures(a + b) == Ensures(a) + Ensures(b)
    decreases |b|
  {
    if b == [] {
      assert a + b == a;
    } else {
      var c := b[..|b| - 1];
      EnsuresConcat(a, c);
      assert (a + b)[..|a + b| - 1] == a + c;
    }
  }

  lemma {:induction false} TestsEnsureNothing(b: Block, n: nat)
    requires b.Block? && n <= |b.handlers|
    ensures Ensures(Tests(b, n)) == []
  {
    if n > 0 {
      TestsEnsureNothing(b, n - 1);
      var last := if b.handlers[n - 1].FilterHandler? then [Tested(b.id, n - 1)] else [];
      EnsuresConcat(Tests(b, n - 1), last);
    }
  }

  /** The ensures the k innermost blocks have. */
  function EnsuresWithin(chain: seq<Block>, k: nat): seq<nat>
    requires k <= |chain| && forall i {:trigger chain[i]} :: 0 <= i < |chain| ==> chain[i].Block?
  {
    if k == 0 then []
    else EnsuresWithin(chain, k - 1) + if chain[k - 1].ensureLabel.Some? then [chain[k - 1].id] else []
  }

  lemma PassedEnsures(b: Block)
    requires b.Block?
    ensures Ensures(Passed(b)) == if b.ensureLabel.Some? then [b.id] else []
  {
    TestsEnsureNothing(b, |b.handlers|);
    EnsuresConcat(Tests(b, |b.handlers|), if b.ensureLabel.Some? then [Ensured(b.id)] else []);
  }

  lemma NothingEnsured(chain: seq<Block>)
    requires forall i {:trigger chain[i]} :: 0 <= i < |chain| ==> chain[i].Block?
    ensures Ensures(History(chain, 0)) == EnsuresWithin(chain, 0) == []
  {
  }

  lemma HistoryNext(chain: seq<Block>, k: nat)
    requires k < |chain| && forall i {:trigger chain[i]} :: 0 <= i < |chain| ==> chain[i].Block?
    ensures History(chain, k + 1) == History(chain, k) + Passed(chain[k])
    ensures EnsuresWithin(chain, k + 1)
         == EnsuresWithin(chain, k) + if chain[k].ensureLabel.Some? then [chain[k].id] else []
  {
  }

  lemma {:induction false} HistoryEnsures(chain: seq<Block>, k: nat)
    requires k <= |chain| && forall i {:trigger chain[i]} :: 0 <= i < |chain| ==> chain[i].Block?
    ensures Ensures(History(chain, k)) == EnsuresWithin(chain, k)
  {
    hide Ensures, Passed, History, EnsuresWithin;
    if k == 0 {
      NothingEnsured(chain);
    } else {
      HistoryNext(chain, k - 1);
      HistoryEnsures(chain, k - 1);
      EnsuresConcat(History(chain, k - 1), Passed(chain[k - 1]));
      PassedEnsures(chain[k - 1]);
    }
  }

  /** Every ensure strictly inside of the block that takes the exception has run once, innermost
      first, and no other; all have if no block takes it. */
  lemma EnsuresRunOnce(s: Search, k: nat, verdict: Verdict, log: seq<Event>)
    requires UnwoundAt(s, k, verdict, log)
    ensures k <= |Chain(s.start)| && Ensures(log) == Ensures(s.log) + EnsuresWithin(Chain(s.start), k)
  {
    var chain := Chain(s.start);
    var rest := [];
    if h: nat :| RescuedAt(s, k, h, verdict, log) {
      rest := Tests(chain[k], h + 1);
      TestsEnsureNothing(chain[k], h + 1);
    } else if LoopTakesAt(s, k, verdict, log) {
      rest := Tests(chain[k], |chain[k].handlers|);
      TestsEnsureNothing(chain[k], |chain[k].handlers|);
    }
    assert log == Past(s, k) + rest;
    HistoryEnsures(chain, k);
    EnsuresConcat(s.log, History(chain, k));
    EnsuresConcat(Past(s, k), rest);
  }

  lemma TakenThere(s: Search, k: nat, verdict: Verdict, log: seq<Event>)
    requires UnwoundAt(s, k, verdict, log)
    ensures Passing(s, k) && (k < |Chain(s.start)| ==> Takes(s.world, s.e, Chain(s.start)[k], Past(s, k)))
  {
  }

  /** Which ensures are new in the log: those of the blocks inside of the one that takes it. */
  lemma EnsuresInLog(s: Search, k: nat, verdict: Verdict, log: seq<Event>, id: nat)
    requires UnwoundAt(s, k, verdict, log)
    ensures |s.log| <= |log| && log[..|s.log|] == s.log && k <= |Chain(s.start)|
    ensures Ensured(id) in log[|s.log|..] <==>
            exists i {:trigger Chain(s.start)[i]} ::
              0 <= i < k && Chain(s.start)[i].ensureLabel.Some? && Chain(s.start)[i].id == id
  {
    hide UnwoundAt, History, Tests;
    var rest := LastTests(s, k, verdict, log, id);
    var chain := Chain(s.start);
    LogParts(s.log, History(chain, k), rest);
    HistoryHas(chain, k, id);
  }

  lemma LastTests(s: Search, k: nat, verdict: Verdict, log: seq<Event>, id: nat) returns (rest: seq<Event>)
    requires UnwoundAt(s, k, verdict, log)
    ensures k <= |Chain(s.start)| && log == Past(s, k) + rest && Ensured(id) !in rest
  {
    hide Tests, Matches, NoneMatches, Takes, Past, Chain;
    var chain := Chain(s.start);
    rest := [];
    if h: nat :| RescuedAt(s, k, h, verdict, log) {
      rest := Tests(chain[k], h + 1);
      TestsHaveNoEnsure(chain[k], h + 1, id);
    } else if LoopTakesAt(s, k, verdict, log) {
      rest := Tests(chain[k], |chain[k].handlers|);
      TestsHaveNoEnsure(chain[k], |chain[k].handlers|, id);
    } else {
      assert log + [] == log;
    }
  }

  lemma LogParts(a: seq<Event>, b: seq<Event>, c: seq<Event>)
    ensures var log := (a + b) + c; log[..|a|] == a && log[|a|..] == b + c
  {
  }

  lemma {:induction false} TestsHaveNoEnsure(b: Block, n: nat, id: nat)
    requires b.Block? && n <= |b.handlers|
    ensures Ensured(id) !in Tests(b, n)
  {
    if n > 0 {
      TestsHaveNoEnsure(b, n - 1, id);
    }
  }

  lemma {:induction false} HistoryHas(chain: seq<Block>, k: nat, id: nat)
    requires k <= |chain| && forall i {:trigger chain[i]} :: 0 <= i < |chain| ==> chain[i].Block?
    ensures Ensured(id) in History(chain, k) <==>
            exists i {:trigger chain[i]} :: 0 <= i < k && chain[i].ensureLabel.Some? && chain[i].id == id
  {
    if k > 0 {
      HistoryHas(chain, k - 1, id);
      var b := chain[k - 1];
      TestsHaveNoEnsure(b, |b.handlers|, id);
      assert Ensured(id) in Passed(b) <==> b.ensureLabel.Some? && b.id == id;
    }
  }

  /** There is exactly one way for an exception to be taken. */
  lemma OneVerdict(s: Search, i: nat, v: Verdict, x: seq<Event>, j: nat, w: Verdict, y: seq<Event>)
    requires UnwoundAt(s, i, v, x) && UnwoundAt(s, j, w, y)
    ensures i == j && v == w && x == y
  {
    TakenThere(s, i, v, x);
    TakenThere(s, j, w, y);
    assert i == j;
    if g: nat, h: nat :| RescuedAt(s, i, g, v, x) && RescuedAt(s, j, h, w, y) {
      assert g == h;
    }
  }

  // ----- who takes it, in the blocks' own terms ---------------------------------------------------

  /** Some block takes it, or none does; the block around that one is current then. */
  lemma TakenSomewhere(s: Search, verdict: Verdict, log: seq<Event>, current: Block) returns (k: nat)
    requires Unwound(s, verdict, log, current)
    ensures UnwoundAt(s, k, verdict, log) && k <= |Chain(s.start)|
    ensures current == if k < |Chain(s.start)| then Chain(s.start)[k].parent else NoBlock
  {
    k :| UnwoundAt(s, k, verdict, log) && current == Around(s, k);
  }

  /** A loop entry takes break to the loop's end, next to its next round, and redo to where it was
      raised. */
  lemma TakenByLoop(s: Search, k: nat, verdict: Verdict, log: seq<Event>)
    requires UnwoundAt(s, k, verdict, log) && k < |Chain(s.start)| && verdict.Resumed? && verdict.handler.None?
    ensures var b := Chain(s.start)[k];
            b.Block? && b.loop.Some? &&
            match s.e.kind
            case BreakException(_, _, _) => verdict == Resumed(b.loop.value.end, None)
            case NextException(_) => verdict == Resumed(b.loop.value.next, None)
            case RedoException(pos) => verdict == Resumed(pos, None)
            case _ => false
  {
  }

  /** A rescue that takes it is one of the block's, and the exception is a standard error, or of one
      of the classes the rescue's test, which has just run, has left. */
  lemma TakenByRescue(s: Search, k: nat, verdict: Verdict, log: seq<Event>)
    requires UnwoundAt(s, k, verdict, log) && k < |Chain(s.start)| && verdict.Resumed? && verdict.handler.Some?
    ensures var b, h := Chain(s.start)[k], verdict.handler.value;
      && b.Block? && h in b.handlers && verdict.ip == h.rescue
      && (h.StandardHandler? ==> STANDARD_ERROR in s.e.ancestors)
      && (h.FilterHandler? ==>
            |log| > 0 && log[|log| - 1].Tested? && s.world(log).Some?
            && exists i {:trigger s.world(log).value[i]} ::
                 0 <= i < |s.world(log).value| && s.world(log).value[i] in s.e.ancestors)
  {
    var b := Chain(s.start)[k];
    var h: nat :| RescuedAt(s, k, h, verdict, log);
    assert b.handlers[h] == verdict.handler.value && log == Past(s, k) + Tests(b, h + 1);
    if b.handlers[h].FilterHandler? {
      assert Tests(b, h + 1) == Tests(b, h) + [Tested(b.id, h)];
      assert log[|log| - 1] == Tested(b.id, h);
    }
  }

  /** Blocks farther in have no plain rescue for a standard error, and no loop entry for a break, a
      next or a redo. */
  lemma NotTakenFartherIn(s: Search, k: nat, verdict: Verdict, log: seq<Event>, i: nat)
    requires UnwoundAt(s, k, verdict, log) && i < k <= |Chain(s.start)|
    ensures var b := Chain(s.start)[i];
      && b.Block?
      && (STANDARD_ERROR in s.e.ancestors ==> forall h {:trigger b.handlers[h]} ::
            0 <= h < |b.handlers| ==> !b.handlers[h].StandardHandler?)
      && (b.loop.Some? ==> s.e.kind.ReturnException? || s.e.kind.OrdinaryException?)
  {
    TakenThere(s, k, verdict, log);
    var b := Chain(s.start)[i];
    assert !Takes(s.world, s.e, b, Past(s, i));
    NoFirstMatch(s, b, Past(s, i));
  }

  /** A block's own rescues come before its loop entry. */
  lemma RescueBeforeLoop(s: Search, k: nat, verdict: Verdict, log: seq<Event>, h: nat)
    requires UnwoundAt(s, k, verdict, log) && k < |Chain(s.start)| && h < |Chain(s.start)[k].handlers|
    requires Chain(s.start)[k].handlers[h].StandardHandler? && STANDARD_ERROR in s.e.ancestors
    ensures verdict.Resumed? && verdict.handler.Some?
  {
    var b := Chain(s.start)[k];
    if !Rescues(s.world, s.e, b, Past(s, k)) {
      NoFirstMatch(s, b, Past(s, k));
    }
  }

  lemma NoFirstMatch(s: Search, b: Block, log: seq<Event>)
    requires b.Block? && !Rescues(s.world, s.e, b, log)
    ensures NoneMatches(s.world, s.e, b, log, |b.handlers|)
    ensures STANDARD_ERROR in s.e.ancestors ==>
              forall h {:trigger b.handlers[h]} :: 0 <= h < |b.handlers| ==> !b.handlers[h].StandardHandler?
  {
    NoMatchUpTo(s, b, log, |b.handlers|);
  }

  lemma {:induction false} NoMatchUpTo(s: Search, b: Block, log: seq<Event>, n: nat)
    requires b.Block? && n <= |b.handlers| && !Rescues(s.world, s.e, b, log)
    ensures NoneMatches(s.world, s.e, b, log, n)
    ensures STANDARD_ERROR in s.e.ancestors ==>
              forall h {:trigger b.handlers[h]} :: 0 <= h < n ==> !b.handlers[h].StandardHandler?
    decreases n
  {
    if n > 0 {
      NoMatchUpTo(s, b, log, n - 1);
      assert !FirstMatch(s.world, s.e, b, log, n - 1);
    }
  }

  /** When no block takes it: next and a return to this code leave the frame with their value, redo
      goes back to where it was raised, and everything else is raised again. */
  lemma TakenByFrame(s: Search, verdict: Verdict, log: seq<Event>)
    requires UnwoundAt(s, |Chain(s.start)|, verdict, log)
    ensures match s.e.kind
            case RedoException(pos) => verdict == Resumed(pos, None)
            case NextException(value) => verdict == LeftWith(value)
            case ReturnException(target, value) =>
              verdict == (if target == s.code then LeftWith(value) else Rethrown)
            case _ => verdict == Rethrown
  {
  }

  // ----- evaluate_block's part -----------------------------------------------------------------

  /** Where the interpreter goes on: in the code of a test or of an ensure, in ordinary code, or not
      in this frame. */
  datatype Goto =
    | RunTest(ip: nat)
    | RunEnsure(ip: nat)
    | Resume(ip: nat, handler: Option<Handler>)
    | Return(value: Value)
    | Throw

  /** Handler h of block k is being tested. */
  ghost predicate Testing(s: Search, k: nat, h: nat, log: seq<Event>) {
    Passing(s, k) && k < |Chain(s.start)| &&
    var b := Chain(s.start)[k];
    h < |b.handlers| && b.handlers[h].FilterHandler? && NoneMatches(s.world, s.e, b, Past(s, k), h)
      && log == Past(s, k) + Tests(b, h)
  }

  /** The first h handlers of block k do not match. */
  ghost predicate Trying(s: Search, k: nat, h: nat, log: seq<Event>) {
    Passing(s, k) && k < |Chain(s.start)| &&
    var b := Chain(s.start)[k];
    h <= |b.handlers| && NoneMatches(s.world, s.e, b, Past(s, k), h) && log == Past(s, k) + Tests(b, h)
  }

  /** Block k has let the exception pass and its ensure is next. */
  ghost predicate Ensuring(s: Search, k: nat, log: seq<Event>) {
    Passing(s, k) && k < |Chain(s.start)| &&
    var b := Chain(s.start)[k];
    b.ensureLabel.Some? && !Takes(s.world, s.e, b, Past(s, k)) && log == Past(s, k) + Tests(b, |b.handlers|)
  }

  ghost predicate Arrived(s: Search, g: Goto, k: nat, current: Block, loopBlock: Block, loopHandler: nat,
                          log: seq<Event>) {
    match g
    case RunTest(ip) =>
      && Testing(s, k, loopHandler, log) && loopBlock == Chain(s.start)[k] && current == loopBlock.parent
      && ip == loopBlock.handlers[loopHandler].test
    case RunEnsure(ip) =>
      Ensuring(s, k, log) && loopBlock == Chain(s.start)[k] && current == loopBlock.parent
        && Some(ip) == loopBlock.ensureLabel
    case Resume(ip, handler) => Unwound(s, Resumed(ip, handler), log, current)
    case Return(value) => Unwound(s, LeftWith(value), log, current)
    case Throw => Unwound(s, Rethrown, log, current)
  }

  lemma StandardTried(s: Search, k: nat, h: nat, log: seq<Event>)
    requires Trying(s, k, h, log) && h < |Chain(s.start)[k].handlers| && Chain(s.start)[k].handlers[h].StandardHandler?
    ensures var handler := Chain(s.start)[k].handlers[h];
            if STANDARD_ERROR in s.e.ancestors
            then Unwound(s, Resumed(handler.rescue, Some(handler)), log, Chain(s.start)[k].parent)
            else Trying(s, k, h + 1, log)
  {
    var b := Chain(s.start)[k];
    assert Matches(s.world, s.e, b, Past(s, k), h) <==> STANDARD_ERROR in s.e.ancestors;
    if STANDARD_ERROR in s.e.ancestors {
      assert RescuedAt(s, k, h, Resumed(b.handlers[h].rescue, Some(b.handlers[h])), log);
      assert UnwoundAt(s, k, Resumed(b.handlers[h].rescue, Some(b.handlers[h])), log);
    }
  }

  lemma FilterTried(s: Search, k: nat, h: nat, log: seq<Event>)
    requires Testing(s, k, h, log)
    ensures var handler := Chain(s.start)[k].handlers[h];
            var tested := log + [Tested(Chain(s.start)[k].id, h)];
            if InList(s.e, s.world(tested))
            then Unwound(s, Resumed(handler.rescue, Some(handler)), tested, Chain(s.start)[k].parent)
            else Trying(s, k, h + 1, tested)
  {
    var b := Chain(s.start)[k];
    var tested := log + [Tested(b.id, h)];
    assert tested == Past(s, k) + Tests(b, h + 1);
    assert Matches(s.world, s.e, b, Past(s, k), h) <==> InList(s.e, s.world(tested));
    if InList(s.e, s.world(tested)) {
      assert RescuedAt(s, k, h, Resumed(b.handlers[h].rescue, Some(b.handlers[h])), tested);
      assert UnwoundAt(s, k, Resumed(b.handlers[h].rescue, Some(b.handlers[h])), tested);
    }
  }

  lemma AllTried(s: Search, k: nat, log: seq<Event>)
    requires k < |Chain(s.start)| && Trying(s, k, |Chain(s.start)[k].handlers|, log)
    ensures var b := Chain(s.start)[k];
            if LoopTakes(s.e, b) then Unwound(s, Resumed(LoopTarget(s.e, b), None), log, b.parent)
            else if b.ensureLabel.Some? then Ensuring(s, k, log)
            else Passing(s, k + 1) && log == Past(s, k + 1)
  {
    hide Matches, Past, Tests, Chain;
    var b := Chain(s.start)[k];
    assert !Rescues(s.world, s.e, b, Past(s, k));
    if LoopTakes(s.e, b) {
      assert UnwoundAt(s, k, Resumed(LoopTarget(s.e, b), None), log);
    } else if b.ensureLabel.None? {
      PastNext(s, k);
    }
  }

  lemma PastNext(s: Search, k: nat)
    requires k < |Chain(s.start)|
    ensures var b := Chain(s.start)[k];
            var tested := Past(s, k) + Tests(b, |b.handlers|);
            Past(s, k + 1) == if b.ensureLabel.Some? then tested + [Ensured(b.id)] else tested
  {
    var b := Chain(s.start)[k];
    assert Past(s, k + 1) == Past(s, k) + Passed(b) by {
      assert History(Chain(s.start), k + 1) == History(Chain(s.start), k) + Passed(b);
    }
    assert Tests(b, |b.handlers|) + [] == Tests(b, |b.handlers|);
    assert (Past(s, k) + Tests(b, |b.handlers|)) + [Ensured(b.id)]
      == Past(s, k) + (Tests(b, |b.handlers|) + [Ensured(b.id)]);
  }

  lemma EnsureRun(s: Search, k: nat, log: seq<Event>)
    requires Ensuring(s, k, log)
    ensures Passing(s, k + 1) && log + [Ensured(Chain(s.start)[k].id)] == Past(s, k + 1)
  {
    hide Takes, Past, Tests, Chain;
    PastNext(s, k);
  }

  lemma NothingPassed(s: Search)
    ensures Passing(s, 0) && Past(s, 0) == s.log && Chain(s.start)[0..] == Chain(s.start)
  {
  }

  lemma NoneLeft(s: Search, k: nat)
    requires Passing(s, k) && k == |Chain(s.start)|
    ensures Unwound(s, AtFrame(s.e, s.code), Past(s, k), NoBlock)
  {
    assert UnwoundAt(s, k, AtFrame(s.e, s.code), Past(s, k));
  }

  lemma StartTrying(s: Search, k: nat)
    requires Passing(s, k) && k < |Chain(s.start)|
    ensures Trying(s, k, 0, Past(s, k))
  {
  }

  /** The exception is $! and in the rescue's variable if a rescue takes it; otherwise neither has
      changed. */
  ghost predicate Delivered(e: Exception, handler: Option<Handler>, was: map<int, Exception>,
                            errors: map<int, Exception>, wasThread: Option<Exception>, thread: Option<Exception>) {
    match handler
    case None => errors == was && thread == wasThread
    case Some(h) => thread == Some(e) && errors == if h.variable != -1 then was[h.variable := e] else was
  }

  function HandlerOf(g: Goto): Option<Handler> {
    if g.Resume? then g.handler else None
  }

  class Frame {
    const code: nat
    var current: Block
    var loopBlock: Block
    var loopHandler: nat
    var exception: Option<Exception>
    var threadException: Option<Exception>
    var errors: map<int, Exception>

    constructor (code: nat, current: Block)
      ensures this.code == code && this.current == current && exception == None && threadException == None
        && errors == map[]
    {
      this.code, this.current, loopBlock, loopHandler := code, current, NoBlock, 0;
      exception, threadException, errors := None, None, map[];
    }

    /** run_handler */
    method RunHandler() returns (g: Goto)
      requires loopBlock.Block? && loopHandler < |loopBlock.handlers| && exception.Some?
      modifies this`errors, this`threadException, this`exception
      ensures var h := loopBlock.handlers[loopHandler];
              && g == Resume(h.rescue, Some(h)) && exception == None && threadException == old(exception)
              && errors == if h.variable != -1 then old(errors)[h.variable := old(exception).value] else old(errors)
    {
      var handler := loopBlock.handlers[loopHandler];
      if handler.variable != -1 {
        errors := errors[handler.variable := exception.value];
      }
      threadException := exception;
      exception := None;
      g := Resume(handler.rescue, Some(handler));
    }

    /** handle_exception */
    method HandleException(ghost s: Search, ghost k: nat) returns (g: Goto, ghost at: nat)
      requires exception == Some(s.e) && code == s.code && Passing(s, k) && Chain(current) == Chain(s.start)[k..]
      modifies this
      ensures Arrived(s, g, at, current, loopBlock, loopHandler, Past(s, k)) && at >= k
      ensures exception == if g.RunTest? || g.RunEnsure? || g.Throw? then Some(s.e) else None
      ensures Delivered(s.e, HandlerOf(g), old(errors), errors, old(threadException), threadException)
      decreases current, 1
    {
      hide Unwound, Ensuring, Takes, Past, Trying, Testing;
      if current.NoBlock? {
        assert k == |Chain(s.start)|;
        NoneLeft(s, k);
        at := k;
        match exception.value.kind {
        case RedoException(pos) =>
          exception := None;
          return Resume(pos, None), at;
        case NextException(value) =>
          exception := None;
          return Return(value), at;
        case ReturnException(target, value) =>
          if target == code {
            exception := None;
            return Return(value), at;
          }
        case _ =>
        }
        return Throw, at;
      }
      assert Chain(s.start)[k] == current;
      ChainFrom(s.start, k);
      StartTrying(s, k);
      loopBlock := current;
      current := current.parent;
      loopHandler := 0;
      g, at := TryHandlers(s, k, Past(s, k));
    }

    /** The loop over a block's handlers, from loopHandler on. */
    method TryHandlers(ghost s: Search, ghost k: nat, ghost log: seq<Event>) returns (g: Goto, ghost at: nat)
      requires exception == Some(s.e) && code == s.code && Trying(s, k, loopHandler, log)
      requires loopBlock == Chain(s.start)[k] && current == loopBlock.parent
      modifies this
      ensures Arrived(s, g, at, current, loopBlock, loopHandler, log)
      ensures at > k || (at == k && (g.RunTest? ==> loopHandler >= old(loopHandler)))
      ensures exception == if g.RunTest? || g.RunEnsure? || g.Throw? then Some(s.e) else None
      ensures Delivered(s.e, HandlerOf(g), old(errors), errors, old(threadException), threadException)
      decreases loopBlock, 0
    {
      hide Passing, Unwound, Ensuring, NoneMatches, Takes, Past;
      at := k;
      while loopHandler < |loopBlock.handlers|
        invariant Trying(s, k, loopHandler, log) && exception == Some(s.e)
        invariant errors == old(errors) && threadException == old(threadException)
        invariant loopBlock == Chain(s.start)[k] && current == loopBlock.parent && loopHandler >= old(loopHandler)
        decreases |loopBlock.handlers| - loopHandler
      {
        var handler := loopBlock.handlers[loopHandler];
        if handler.FilterHandler? {
          return RunTest(handler.test), k;
        }
        StandardTried(s, k, loopHandler, log);
        if STANDARD_ERROR in exception.value.ancestors {
          g := RunHandler();
          return;
        }
        loopHandler := loopHandler + 1;
      }
      AllTried(s, k, log);
      var kind := exception.value.kind;
      if loopBlock.loop.Some? && !kind.ReturnException? && !kind.OrdinaryException? {
        exception := None;
        if kind.RedoException? {
          return Resume(kind.pos, None), k;
        } else if kind.NextException? {
          return Resume(loopBlock.loop.value.next, None), k;
        } else {
          return Resume(loopBlock.loop.value.end, None), k;
        }
      }
      current := loopBlock.parent;
      if loopBlock.ensureLabel.Some? {
        g := RunEnsure(loopBlock.ensureLabel.value);
      } else {
        ChainFrom(s.start, k);
        g, at := HandleException(s, k + 1);
      }
    }

    /** The test of a handler has run, and its register holds list. */
    method UnwindFilter(list: Option<seq<Class>>, ghost s: Search, ghost k: nat, ghost log: seq<Event>)
      returns (g: Goto, ghost at: nat)
      requires exception == Some(s.e) && code == s.code && Testing(s, k, loopHandler, log)
      requires loopBlock == Chain(s.start)[k] && current == loopBlock.parent
      requires list == s.world(log + [Tested(loopBlock.id, loopHandler)])
      modifies this
      ensures Arrived(s, g, at, current, loopBlock, loopHandler, log + [Tested(old(loopBlock.id), old(loopHandler))])
      ensures at > k || (at == k && (g.RunTest? ==> loopHandler > old(loopHandler)))
      ensures exception == if g.RunTest? || g.RunEnsure? || g.Throw? then Some(s.e) else None
      ensures Delivered(s.e, HandlerOf(g), old(errors), errors, old(threadException), threadException)
    {
      hide Passing, Unwound, Ensuring, NoneMatches, Takes, Past;
      FilterTried(s, k, loopHandler, log);
      if list.Some? {
        var i := 0;
        while i < |list.value|
          invariant 0 <= i <= |list.value| && forall j :: 0 <= j < i ==> list.value[j] !in s.e.ancestors
        {
          if list.value[i] in exception.value.ancestors {
            at := k;
            g := RunHandler();
            return;
          }
          i := i + 1;
        }
      }
      ghost var tested := log + [Tested(loopBlock.id, loopHandler)];
      loopHandler := loopHandler + 1;
      g, at := TryHandlers(s, k, tested);
    }

    /** An ensure has run. */
    method UnwindEnsure(ghost s: Search, ghost k: nat, ghost log: seq<Event>) returns (g: Goto, ghost at: nat)
      requires exception == Some(s.e) && code == s.code && Ensuring(s, k, log) && current == Chain(s.start)[k].parent
      modifies this
      ensures Arrived(s, g, at, current, loopBlock, loopHandler, log + [Ensured(Chain(s.start)[k].id)]) && at > k
      ensures exception == if g.RunTest? || g.RunEnsure? || g.Throw? then Some(s.e) else None
      ensures Delivered(s.e, HandlerOf(g), old(errors), errors, old(threadException), threadException)
    {
      ChainFrom(s.start, k);
      EnsureRun(s, k, log);
      g, at := HandleException(s, k + 1);
    }

    /** A raised exception, from the catch clause until ordinary code goes on or the frame is left:
        tests and ensures run as they come up, and end in UnwindFilter and UnwindEnsure.  The search
        ends whatever the tests answer. */
    method Raise(e: Exception, world: World, before: seq<Event>) returns (verdict: Verdict, log: seq<Event>)
      requires exception == None
      modifies this
      ensures if e.kind.BreakException? && e.kind.target == code
              then verdict == Continued(e.kind.value, e.kind.dst) && log == before && current == old(current)
              else Unwound(Search(world, e, old(current), before, code), verdict, log, current)
      ensures exception == if verdict.Rethrown? then Some(e) else None
      ensures Delivered(e, if verdict.Resumed? then verdict.handler else None,
                        old(errors), errors, old(threadException), threadException)
      ensures if verdict.Resumed? && verdict.handler.Some?
              then threadException == Some(e) && errors == if verdict.handler.value.variable == -1 then old(errors)
                                                          else old(errors)[verdict.handler.value.variable := e]
              else threadException == old(threadException) && errors == old(errors)
    {
      hide Unwound, Passing, Past, NoneMatches, Takes;
      log := before;
      // the call that was given the closure returns
      if e.kind.BreakException? && e.kind.target == code {
        return Continued(e.kind.value, e.kind.dst), log;
      }
      exception := Some(e);
      ghost var s := Search(world, e, current, before, code);
      NothingPassed(s);
      var g;
      ghost var at: nat;
      g, at := HandleException(s, 0);
      while g.RunTest? || g.RunEnsure?
        invariant Arrived(s, g, at, current, loopBlock, loopHandler, log)
        invariant exception == if g.RunTest? || g.RunEnsure? || g.Throw? then Some(e) else None
        invariant Delivered(e, HandlerOf(g), old(errors), errors, old(threadException), threadException)
        decreases |Chain(s.start)| - at, if g.RunTest? then |loopBlock.handlers| - loopHandler + 1 else 0
      {
        if g.RunTest? {
          var tested := log + [Tested(loopBlock.id, loopHandler)];
          g, at := UnwindFilter(world(tested), s, at, log);
          log := tested;
        } else {
          var ensured := log + [Ensured(loopBlock.id)];
          g, at := UnwindEnsure(s, at, log);
          log := ensured;
        }
      }
      verdict := match g
        case Resume(ip, handler) => Resumed(ip, handler)
        case Return(value) => LeftWith(value)
        case _ => Rethrown;
    }
  }
}
